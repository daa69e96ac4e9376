# Trading back end: verified models of its stateful cores

A Dafny model of the parts of the trading back end that keep state from one call
to the next, with proofs about whole runs of them. Each module follows one
component; methods are proved against specification functions, and the lemmas
then relate those functions to an independent account of what should hold.

| modules | component |
|---|---|
| `Candles`, `CandleRuns`, `CandleIntervals`, `CandleNesting`, `CandleClock`, `CandleRest` | the candle engine: a bounded cache of OHLCV candles fed by trade ticks, for four nested intervals, resized, and merged with REST rows. The reference is the fold of all ticks of a bucket in arrival order |
| `StreamManager`, `StreamConvergence` | the subscription protocol between one exchange connection and its server, as steps with an invariant and a measure, and the server's side beside it |
| `MarketSymbols`, `SubscriptionRegistry` | symbol normalization, and the tables of private and public listeners that decide which symbols the managers want |
| `PositionBook`, `RealizedLoss`, `RealizedCash`, `TradeFills`, `TradeDays` | the average-cost position book, the daily realized loss over an interleaved fill stream, and the keyed upsert that feeds it |
| `RuntimeTrace`, `RuntimeTold`, `RuntimeAudit` | the supervisor's truncated event log and the API's watermark audit of it, end to end |
| `EventLog`, `EventReplay` | numbering, dedupe and bounded history of pushed user events, and cursor replay of them |
| `RateLimiter`, `RateWindows`, `RateExact`, `RateTrim` | the sliding-window limiter of failed logins and its bounds over whole runs |
| `Reconcile`, `ReconcileRuns`, `ReconcileMatches` | reconciliation of pending orders against a sync, its error backoff, and the life of a record |
| `TradePages`, `TradeDownloads` | the paginated trade download against an abstract server |
| `Sequences`, `Text`, `Numbers` | shared operations on bounded sequences, strings and numbers |

## Reading the model

- Objects whose methods update fields are classes whose fields hold immutable
  values: a deque is a `seq` field, a dictionary a `map` field. Clocks, server
  responses and exchange replies are parameters.
- Money, prices and quantities are exact `real`s. Times are integers in the
  unit the code compares: milliseconds for trades, microseconds for the limiter,
  seconds for backoff.
- An operation on the registry runs to completion, or to the error it raises,
  before the next begins, on a started service. Its contracts hold over every
  run, raising calls included; what a run always keeps is `Sound`, and `Valid`
  adds that both pairs of tables are mutual inverses and the managers in step.
  The order in which a set is visited is a parameter. A push of a user event is one step. The audit results follow
  one `runtime_ref` from a given starting watermark.
- The candle laws are stated for runs of ticks; `MixedRunsAscend` says what
  merges and resizes keep.

## Where the code does less than it seems to promise

- A lot at or below the 1e-12 tolerance breaks conservation of PnL
  (`ConservationNeedsLotAboveTolerance`).
- A symbol released before its subscription is confirmed is forgotten while the
  server keeps streaming it, and a Binance error reply whose `result` is null is
  read as success (`BeliefStep`, `AgreementStep`, `ReleasedBeforeConfirmed`).
- Subscribing records the key before the manager is asked. A symbol that
  normalizes to nothing, such as a lone dash on Binance, stays in the tables
  after the call raised. When its client leaves, removing it raises again and
  ends the disconnect, and the client stays listed under the keys not yet
  visited; when the configuration is reloaded, the symbols after it get no
  manager (`UnsubscribeConnection`, `ApplyRuntimeConfig`, `DashThenDisconnect`,
  `DashThenReload`).
- Normalization leaves white space other than spaces inside a symbol, and is
  idempotent exactly on results without any at their ends (`NormalizeIdempotent`).
  Subscribing another symbol leaves the managers wanting something else than the
  tables say, and unsubscribing one can take the symbol of other listeners away
  (`Subscribe`, `Unsubscribe`, `TabTakesAnother`).
- What REST fills in or corrects before the previous latest candle is cached but
  never published after a reconnect (`ReconnectCatchesUp`,
  `ReconnectOnInputs`, `MinuteStaysUnseen`).
- A trade server that honours the time boundary loses the rest of every
  millisecond in which a page ends (`TimedCompleteIffCleanBreaks`,
  `SplitMillisecondLost`).
- A lockout shorter than the window lets more failures through than the limit
  (`WindowBoundIffLongLockout`, `SettingsBound`).
- A synced row without a parseable trade time moves to the time of every later
  sync (`RepeatNeedsTime`).
- A reconcile request made again for an old record keeps the record's age, so
  the next age check can expire it at once (`AgeIsFirstCreation`).
- An audit row that starts at a watermark above zero silently skips the numbers
  up to it, because a new runtime counts from one again (`ExactlyOnce`).

## Model

| member | source | states |
|---|---|---|
| PositionBook.Conservation | apps/api/app/services/risk_service.py:259-267 | after any trades of one symbol in whole lots, the quantity is the sum of the signed quantities and gross PnL is minus the cash spent plus quantity times average price, through increases, partial closes and reversals; every quantity stays a multiple of the lot |
| PositionBook.FlatRealizesNetCash | apps/api/app/services/risk_service.py:259-267 | a book that ends flat has forgotten its average price and realized exactly its net cash flow |
| PositionBook.ConservationNeedsLotAboveTolerance | apps/api/app/services/risk_service.py:314-315 | the conservation law holds for all trades in multiples of a lot if and only if the lot is larger than the 1e-12 tolerance |
| PositionBook.ToleranceIsExact | apps/api/app/services/risk_service.py:314-315 | on multiples of such a lot the tolerance test is true exactly of zero |
| PositionBook.StepConserves | apps/api/app/services/risk_service.py:310-344 | one trade, whichever branch it takes, adds its quantity and moves gross PnL minus position value by exactly its cash; an emptied position is reset |
| PositionBook.StepKeepsAverageWithin | apps/api/app/services/risk_service.py:318-344 | an average price lies between any bounds on the price held before (when the direction stays) and on the trade price (when it sets the direction) |
| PositionBook.AverageWithinEpisode | apps/api/app/services/risk_service.py:318-344 | the average price lies within the prices of the trades that built the position since it was last flat or reversed |
| PositionBook.MirrorNegates | apps/api/app/services/risk_service.py:259-267 | exchanging buys and sells negates the position and gross PnL and keeps the average price |
| PositionBook.SplitTrade | apps/api/app/services/risk_service.py:259-267 | splitting one trade into two consecutive parts at its price changes nothing in the rest of the run |
| RealizedLoss.CalculateDailyRealizedLoss | apps/api/app/services/risk_service.py:238-271 | the loop over an interleaved stream returns the loss of the sum, over symbols, of each symbol traded alone, net of its fees; rejected rows count nothing |
| RealizedLoss.TradeOnPosition | apps/api/app/services/risk_service.py:259-266 | the branching loop body moves the position and realizes PnL exactly as one step of the book |
| RealizedLoss.TotalTakesRow | apps/api/app/services/risk_service.py:238-268 | an accepted row changes the total by its own symbol's step and fee, and no other symbol |
| RealizedLoss.InterleavingIndependent | apps/api/app/services/risk_service.py:253-267 | two streams with the same rows per symbol give the same total, however they are interleaved |
| RealizedCash.SymbolConserves | apps/api/app/services/risk_service.py:238-271 | a symbol holds what its rows bought and has realized the cash its rows brought in plus what it holds at its average price: cash and quantity are read from the rows, a SELL bringing quantity times price and a BUY costing it |
| RealizedCash.DayConserves | apps/api/app/services/risk_service.py:238-271 | over any interleaved day the realized total is the cash the rows brought in, fees included, plus what is still held at cost |
| RealizedCash.FlatDayLosesItsCash | apps/api/app/services/risk_service.py:238-271 | when every symbol sold what it bought the loss is the cash that left the account, and zero when none did |
| RealizedCash.FeeOfPair | apps/api/app/services/risk_service.py:347-390 | for a pair written with a delimiter, a fee charged in the base asset counts at the price and every other at its amount |
| RealizedCash.FeeOfJoined | apps/api/app/services/risk_service.py:347-390 | the same for a pair written together with a known quote at its end |
| RealizedLoss.SplitFillSameLoss | apps/api/app/services/risk_service.py:238-271 | splitting a fill into two consecutive fills at its price, with fees that add up to its fee, leaves the total unchanged |
| TradeFills.TradeFillStore.UpsertFills | apps/api/app/services/trade_fill_service.py:25-61 | the loop over rows leaves the table that upserting each row by (upper-case symbol, trade id) gives, keeps keys unique, and returns the number of usable rows |
| TradeFills.AllHeld | apps/api/app/services/trade_fill_service.py:38-55 | after a batch the table says of each of its rows what the row says |
| TradeFills.RepeatsChangeNothing | apps/api/app/services/trade_fill_service.py:31-61 | a batch with repeated identical rows gives the table of its distinct rows, each taken where first seen |
| TradeFills.OverlappingSyncsCountOnce | apps/api/app/services/trade_fill_service.py:14-61 | two overlapping batches synced at different times give the table, and the daily realized loss, of the distinct rows taken once |
| TradeFills.LastRowWins | apps/api/app/services/trade_fill_service.py:31-61 | after any batch, contradicting rows included, a key holds the price, quantity, fee, maker flag and time of its last usable row with the last non-empty order id and side, and keys without a row are as they were |
| TradeFills.PlacesStay | apps/api/app/services/trade_fill_service.py:25-61 | records stay where they are and new ones come after them |
| TradeDays.DayFillsExact | apps/api/app/services/risk_service.py:225-236 | the fills of a day are exactly the records traded from its start to before the next, by time and then by position, each with its own fields |
| TradeFills.RepeatNeedsTime | apps/api/app/services/trade_fill_service.py:54-54 | writing a row again later changes nothing if and only if the row has a parseable time, is unusable, or no time has passed |
| Candles.CandleCache.ApplyTrade | apps/api/app/services/market_data.py:1670-1733 | the in-place fold of one tick (same bucket, newer bucket with eviction, late tick) leaves the cache, and returns the candles, of the specification |
| Candles.CandleCache.Resize | apps/api/app/services/market_data.py:1528-1535 | resizing keeps the newest candles |
| Candles.RecordStep | apps/api/app/services/market_data.py:1709-1733 | a tick of a new newest bucket closes the latest candle, opens one, and the cache still holds the last record bars |
| Candles.LateStep | apps/api/app/services/market_data.py:1679-1708 | a tick of the newest or an older bucket is absorbed by its candle if that is still held and is otherwise ignored, and the cache still holds the last record bars |
| Candles.CacheIsRecordBars | apps/api/app/services/market_data.py:1670-1733 | for every tick sequence, late ticks included, the cache is exactly the last N record buckets, each with the arrival-order OHLCV over all ticks of its bucket |
| CandleRuns.CandlesWellFormed | apps/api/app/services/market_data.py:1670-1733 | times strictly ascend, low <= open, close <= high, and exactly the candles before the last are closed |
| CandleRuns.TailCommutes | apps/api/app/services/market_data.py:1670-1733 | taking the last k candles commutes with applying any tick, on any cache |
| CandleRuns.SmallCacheIsTail | apps/api/app/services/market_data.py:1528-1535 | a cache of size k is always the last k candles of a larger one fed the same ticks |
| CandleRuns.ShrinkMidRun | apps/api/app/services/market_data.py:1528-1535 | a cache shrunk in mid-run cannot be told from one that started small |
| CandleRuns.SubscribersShowCache | apps/api/app/services/market_data.py:1248-1298 | a subscriber that overwrites candles by time with those emitted shows every cached candle as it is |
| CandleIntervals.CandleBook.ApplyTradeTick | apps/api/app/services/market_data.py:1248-1298 | a tick updates the caches of all four live intervals, and no others, and emits their candles in interval order; without subscribers nothing changes |
| CandleIntervals.CandleBook.ApplyTradeAt | apps/api/app/services/market_data.py:1263-1287 | one interval takes the tick in its bucket and leaves the other caches alone |
| CandleIntervals.EachIntervalRunsAlone | apps/api/app/services/market_data.py:1263-1287 | after any ticks each interval's cache is the one it would have had alone |
| CandleIntervals.EmittedTo | apps/api/app/services/market_data.py:1263-1298 | each interval's subscribers are sent exactly what its own cache emits |
| CandleClock.BucketHoldsItsTime | apps/api/app/services/market_data.py:1736-1738 | a bucket starts on a multiple of its length, and its interval of milliseconds holds the timestamp; times before the epoch fall in bucket zero |
| CandleClock.WithinIsBucket | apps/api/app/services/market_data.py:1736-1738 | a timestamp shares a bucket exactly when it lies in the bucket's interval |
| CandleClock.CandleIsItsInterval | apps/api/app/services/market_data.py:1248-1298 | after any trades, late ones included, a cached candle of the 1m, 5m, 15m or 1h interval opens and closes at the prices of the first and last trade to arrive of those made within its interval, spans exactly their prices, and holds their volume |
| CandleNesting.BucketsNest | apps/api/app/services/market_data.py:1736-1738 | the coarse bucket of a timestamp is the coarse bucket of its fine bucket, negative timestamps included |
| CandleNesting.InsideIsCoarseBucket | apps/api/app/services/market_data.py:1736-1738 | two timestamps share a coarse bucket exactly when the fine bucket of one lies inside that of the other |
| CandleNesting.RangesContained | apps/api/app/services/market_data.py:1263-1287 | every retained fine candle inside a retained coarse one lies within its low and high |
| CandleNesting.VolumesContained | apps/api/app/services/market_data.py:1263-1287 | the contained volumes sum to at most the coarse volume, and to exactly it when every traded fine bucket is retained |
| CandleNesting.ExtremesMerge | apps/api/app/services/market_data.py:1263-1287 | with every traded fine bucket retained, high, low and volume are those of the contained candles, for ticks in any order |
| CandleNesting.ExactMerge | apps/api/app/services/market_data.py:1263-1287 | for ticks in time order the coarse candle is the exact merge of the contained ones, open and close included |
| CandleNesting.OrderedRetains | apps/api/app/services/market_data.py:1263-1287 | for ticks in time order every traded fine bucket is retained as soon as the fine cache reaches back to the coarse bucket |
| CandleRest.SortByTime | apps/api/app/services/market_data.py:1392-1392 | sorting the merged candles by time gives the strictly ascending list of them |
| CandleRest.MergeRestSeed | apps/api/app/services/market_data.py:1349-1402 | merging REST candles leaves the cache of the specification and, in reconnect mode, returns exactly its candles from the previous latest time on |
| CandleRest.MergeAscends | apps/api/app/services/market_data.py:1392-1394 | a merge leaves the cache strictly ascending and within its size |
| CandleRest.MergeHoldsNewestUnion | apps/api/app/services/market_data.py:1370-1394 | for every time, the merged cache holds the candle expected there from the union of cache and REST rows, or the time is older than a full cache |
| CandleRest.LiveCandlesSurvive | apps/api/app/services/market_data.py:1388-1389 | a candle fed by trades that survives the merge is unchanged |
| CandleRest.MergeIdempotent | apps/api/app/services/market_data.py:1370-1394 | merging the same rows again for the same current bucket changes nothing |
| CandleRest.ReconnectCatchesUp | apps/api/app/services/market_data.py:1396-1402 | after a reconnect a subscriber who showed the old cache shows every merged candle from the previous latest time on, and shows the whole merged cache if and only if it already had every merged candle before that time as it now is |
| CandleRest.MergedIff | apps/api/app/services/market_data.py:1365-1394 | a time of cache or REST rows survives a merge exactly when fewer than the cache size are newer, and then holds the live candle, else the last REST row, else the cached candle |
| CandleRest.ReconnectOnInputs | apps/api/app/services/market_data.py:1365-1402 | the same condition on the inputs: of every such surviving time before the previous latest one, the subscriber already showed the expected candle |
| CandleRest.MergedCandleIs | apps/api/app/services/market_data.py:1370-1394 | a merged candle is the live one of its time if there was one, else the last usable REST row of its time with its prices, positive volume, and closed when before the current bucket, else the cached one |
| CandleRest.FilledGapUnseen | apps/api/app/services/market_data.py:1365-1402 | a gap that REST fills before the previous latest time stays unseen by every subscriber that lacked it, unless the merge drops it |
| CandleRest.MinuteStaysUnseen | apps/api/app/services/market_data.py:1365-1402 | an input: the minute filled in between two live candles is in the cache and never shown |
| CandleRest.MixedRunsAscend | apps/api/app/services/market_data.py:1349-1402 | over any run of ticks, merges and resizes the cache stays strictly ascending and within its size |
| StreamManager.ExchangeStreamManager.SyncSubscriptions | apps/api/app/services/market_data.py:487-503 | asks for each desired symbol neither live nor pending and releases each live symbol neither desired nor pending, once each, from the state at the start |
| StreamManager.ExchangeStreamManager.MarkSymbolLive | apps/api/app/services/market_data.py:527-537 | a live symbol still desired becomes subscribed; otherwise it is released if it is believed live and no release is pending |
| StreamManager.ExchangeStreamManager.HandleReply | apps/api/app/services/market_data.py:647-667 | a reply to a request in flight confirms a subscription or a release when its result is null and otherwise clears the symbol's pending marks |
| StreamManager.ExchangeStreamManager.OnConnected | apps/api/app/services/market_data.py:395-399 | a new connection forgets everything but the desired symbols and the last request number |
| StreamManager.InvAlways | apps/api/app/services/market_data.py:487-556 | over every run, pending releases are live, pending subscriptions are not, and every pending mark has a request in flight |
| StreamManager.StepKeepsInv | apps/api/app/services/market_data.py:487-556 | every possible step keeps that invariant |
| StreamManager.SyncSettles | apps/api/app/services/market_data.py:487-503 | after synchronising, every desired symbol is live or asked for and every other live symbol is being released |
| StreamConvergence.AckShrinks | apps/api/app/services/market_data.py:505-556 | handling one acknowledgement and synchronising strictly lowers the measure (requests in flight plus stale ones), also when it makes the manager ask again for a symbol desired while its release was in flight |
| StreamConvergence.RefusalDoesNotGrow | apps/api/app/services/market_data.py:545-556 | a refused request, followed by a synchronisation, is sent again at most once and never raises the measure |
| StreamConvergence.RoundKeeps | apps/api/app/services/market_data.py:505-556 | an acknowledgement, a refusal, a reply to no request in flight, a trade or a wake-up, followed by a synchronisation, keeps the invariant, the settled state and the desired set, and never raises the measure |
| StreamConvergence.Converges | apps/api/app/services/market_data.py:487-556 | with the desired set fixed and refusals anywhere between, as many acknowledgements as the measure, or any run that leaves nothing in flight, reach live equal to desired with nothing pending |
| StreamConvergence.LiveOrReleased | apps/api/app/services/market_data.py:527-556 | a trade or confirmation makes a wanted symbol live, releases a live one no longer wanted at once, and leaves one never live alone |
| StreamConvergence.LivedWants | apps/api/app/services/market_data.py:354-399 | over every run, connections lost and made included, the manager wants exactly what was wished for and not given up |
| StreamConvergence.WishesComeTrue | apps/api/app/services/market_data.py:354-556 | after any run with reconnections, once nothing is in flight, and at the latest after as many acknowledgements as the measure, live is exactly what was wished for, with nothing pending |
| StreamConvergence.ConnectionAsksAgain | apps/api/app/services/market_data.py:395-400 | a new connection asks, once each, for exactly the symbols wanted before it, with a request in flight for each, releases none, and ignores replies to requests of earlier connections |
| StreamConvergence.BeliefStep | apps/api/app/services/market_data.py:647-667 | the manager keeps believing live only what the server streams if and only if the move is not a refused subscription answered with a null result |
| StreamConvergence.AgreementStep | apps/api/app/services/market_data.py:527-556 | live stays equal to what the server streams if and only if no refusal has a null result that matters and no subscription is confirmed after its symbol was released |
| StreamConvergence.AgreementAlways | apps/api/app/services/market_data.py:487-556 | over every run without such replies live equals what the server streams |
| StreamConvergence.ReleasedBeforeConfirmed | apps/api/app/services/market_data.py:527-556 | a possible run after which the manager is converged with nothing desired while the server still streams the symbol |
| MarketSymbols.SpellTwice | apps/api/app/services/market_data.py:1599-1620 | spelling a cleaned symbol for its exchange and market twice is spelling it once |
| MarketSymbols.NormalizeIdempotent | apps/api/app/services/market_data.py:1599-1620 | for every exchange, market and string (Unicode white space, letters changing case within ASCII), normalizing a normalized symbol changes nothing if and only if something is left of it with no white space at its ends |
| MarketSymbols.SecondIsLast | apps/api/app/services/market_data.py:1599-1620 | whatever is sent, a third normalization never changes what the second gave |
| MarketSymbols.PlainLasts | apps/api/app/services/market_data.py:1599-1620 | symbols of ASCII letters, digits, dash, slash and space meet that condition unless nothing is left |
| MarketSymbols.SpellLasts | apps/api/app/services/market_data.py:1605-1620 | spelling keeps text without white space at its ends that way, where Binance has no dash left to remove |
| MarketSymbols.PairSpelled | apps/api/app/services/market_data.py:1599-1620 | a base and a known quote, in any case and written together or with a slash, space or dash between, is spelled joined for Binance, with a dash for OKX, and with -SWAP after it for an OKX perpetual |
| MarketSymbols.SwapStays | apps/api/app/services/market_data.py:1605-1612 | a perpetual already spelled for OKX stays as it is |
| MarketSymbols.DashVanishes | apps/api/app/services/market_data.py:1599-1620 | a lone dash normalizes to nothing on Binance, and nothing is refused |
| MarketSymbols.TabNeedsTwoPasses | apps/api/app/services/market_data.py:1599-1620 | with a tab behind a slash a second normalization still changes the symbol |
| SubscriptionRegistry.AddedLists | apps/api/app/services/market_data.py:981-982 | adding to a table of sets lists exactly one more pair and leaves no empty set |
| SubscriptionRegistry.DiscardedLists | apps/api/app/services/market_data.py:1189-1198 | discarding lists exactly one pair less, and a set left empty goes with its key |
| SubscriptionRegistry.PairAdded | apps/api/app/services/market_data.py:980-982 | adding a subscription to both tables keeps them mutual inverses without empty sets, and keeps listeners covering connections |
| SubscriptionRegistry.PairDiscarded | apps/api/app/services/market_data.py:1188-1198 | removing a subscription from both tables keeps the same |
| SubscriptionRegistry.InverseWhenAllDropped | apps/api/app/services/market_data.py:1019-1024 | once a connection is out of its own table, the tables are mutual inverses exactly when all of its keys were dropped |
| SubscriptionRegistry.HeardAdded | apps/api/app/services/market_data.py:1199-1207 | a subscription adds its symbol to those listened to and no other |
| SubscriptionRegistry.HeardDiscarded | apps/api/app/services/market_data.py:1199-1207 | removing a subscription can take only its own symbol from those listened to |
| SubscriptionRegistry.MarketDataService.Subscribe | apps/api/app/services/market_data.py:960-996 | over every run: the key is in both private tables, the health entry is made if missing, the manager is asked for what the symbol normalizes to a second time or the call raises; inverse tables stay inverse; managers that wanted exactly the symbols heard still do if and only if the normalized symbol is not empty and has no white space at its ends, which for plain symbols means not empty |
| SubscriptionRegistry.MarketDataService.SubscribePublic | apps/api/app/services/market_data.py:1041-1069 | the same for the public tables, leaving the private ones alone |
| SubscriptionRegistry.MarketDataService.Release | apps/api/app/services/market_data.py:1199-1213 | the health entry goes, and the manager lets go of what the symbol normalizes to or the call raises, exactly when no private and no public key of the symbol has a listener left |
| SubscriptionRegistry.MarketDataService.RemoveSubscription | apps/api/app/services/market_data.py:1182-1213 | over every run: the pair leaves both private tables, with the health entry and the manager following when nobody else listens |
| SubscriptionRegistry.MarketDataService.RemovePublicSubscription | apps/api/app/services/market_data.py:1215-1246 | the same for the public tables |
| SubscriptionRegistry.MarketDataService.Unsubscribe | apps/api/app/services/market_data.py:998-1017 | over every run: removes exactly that subscription and raises exactly when a nameless symbol loses its last listener; inverse tables stay inverse; managers in step stay so if and only if the symbol does not normalize again to another one somebody listens to, which plain symbols never do |
| SubscriptionRegistry.MarketDataService.UnsubscribePublic | apps/api/app/services/market_data.py:1071-1089 | the same for a public connection |
| SubscriptionRegistry.MarketDataService.UnsubscribeConnection | apps/api/app/services/market_data.py:1019-1024 | over every run: raises if and only if some key of the connection is nameless and nobody else listens to its symbol; the connection leaves its own table and stays listed under exactly the keys after the one that raised; inverse tables stay inverse if and only if there is none; health and managers let go of exactly the symbols nobody hears; managers in step stay so and nothing raises |
| SubscriptionRegistry.MarketDataService.UnsubscribePublicConnection | apps/api/app/services/market_data.py:1034-1039 | the same for a public connection |
| SubscriptionRegistry.MarketDataService.ApplyRuntimeConfig | apps/api/app/services/market_data.py:870-910 | over every run: raises if and only if some symbol heard normalizes to nothing; the new managers want exactly what the symbols before it normalize to, and exactly the symbols heard if and only if each of these is normal |
| SubscriptionRegistry.MarketDataService.UpdateSymbolStatus | apps/api/app/services/market_data.py:1118-1142 | writes the health entry, changes nothing else, and asks for a backfill exactly when a stale, reconnecting or failed symbol comes back to life |
| SubscriptionRegistry.MarketDataService.Want | apps/api/app/services/market_data.py:983-995 | the health entry is made before the manager is asked, and the manager takes on exactly what the symbol normalizes to, or raises |
| SubscriptionRegistry.WantFollows | apps/api/app/services/market_data.py:354-359 | managers in step and asked for one symbol more stay in step exactly when it normalizes to itself |
| SubscriptionRegistry.ReleaseFollows | apps/api/app/services/market_data.py:361-365 | managers in step and rid of one symbol stay in step unless it normalizes to another one that is heard |
| SubscriptionRegistry.LetGoFollows | apps/api/app/services/market_data.py:1019-1024 | managers in step and rid of all symbols nobody hears any more stay in step |
| SubscriptionRegistry.ReloadFollows | apps/api/app/services/market_data.py:902-908 | reloaded managers are in step exactly when every symbol heard is normal |
| SubscriptionRegistry.DisconnectEnds | apps/api/app/services/market_data.py:1022-1024 | a disconnect raises exactly when, all its keys removed, some nameless symbol of them is heard by nobody |
| SubscriptionRegistry.SubscribeThenDash | apps/api/app/services/market_data.py:1041-1069 | an input: a public client subscribes a plain Binance symbol and then a lone dash, which raises and stays listed |
| SubscriptionRegistry.DashThenDisconnect | apps/api/app/services/market_data.py:1034-1039 | an input: that client leaves, the dash is visited first, and the client stays listed under its other symbol |
| SubscriptionRegistry.DashThenReload | apps/api/app/services/market_data.py:902-908 | an input: the configuration is reloaded, the dash comes first, and no manager wants the symbol that is heard |
| SubscriptionRegistry.NormalWhenLasting | apps/api/app/services/market_data.py:1599-1620 | a normalized symbol normalizes to itself if and only if it is not empty and has no white space at its ends; an empty one is refused by the manager |
| SubscriptionRegistry.TabTakesAnother | apps/api/app/services/market_data.py:1599-1620 | an input whose unsubscription makes the manager let go of another symbol that somebody listens to |
| RuntimeTrace.Runtime.AppendTraceEvent | apps/worker-supervisor/supervisor/runtime.py:1266-1287 | numbers the entry next, and keeps the last history_size entries of the unbounded log, or all of them when the bound is not positive |
| RuntimeTrace.Runtime.ApplyEvent | apps/worker-supervisor/supervisor/runtime.py:1210-1263 | a queued event updates status and stop fields as its kind says and appends its trace entry, or none, to the log |
| RuntimeTrace.Runtime.MarkFailed | apps/worker-supervisor/supervisor/runtime.py:200-223 | a failure sets the status, keeps an earlier stop time and error, and is logged |
| RuntimeTrace.StatusIsLastReported | apps/worker-supervisor/supervisor/runtime.py:1217-1223 | after any run of events the status is the last one a non-trace event reported |
| RuntimeTrace.TerminalHasStopTime | apps/worker-supervisor/supervisor/runtime.py:1231-1232 | a runtime reported stopped or failed has a stop time, and a stop time once set is never lost |
| RuntimeTold.HeartbeatIsLast | apps/worker-supervisor/supervisor/runtime.py:1218-1219 | the heartbeat is the last event's, as it carries it or as it came in |
| RuntimeTold.ErrorIsLast | apps/worker-supervisor/supervisor/runtime.py:1224-1228 | the last error is that of the last event that carried one, and none once a state event found the runtime running without |
| RuntimeTold.ErrorStays | apps/worker-supervisor/supervisor/runtime.py:1224-1228 | without such an event the error stays |
| RuntimeTold.StopTimeIsNamed | apps/worker-supervisor/supervisor/runtime.py:1230-1231 | the stop time is the last one that a stopping event named |
| RuntimeTold.StopTimeStays | apps/worker-supervisor/supervisor/runtime.py:1230-1231 | without a name an earlier stop time stays |
| RuntimeTold.StopTimeIsFirst | apps/worker-supervisor/supervisor/runtime.py:1230-1231 | without either it is when the first stopping event came in |
| RuntimeTold.EntryTells | apps/worker-supervisor/supervisor/runtime.py:1233-1263 | every event but a heartbeat adds one entry at its time, with its own type or the one its kind and the status in force give, and its payload completed with its error and status |
| RuntimeTrace.OnlyHeartbeatsAreSilent | apps/worker-supervisor/supervisor/runtime.py:1210-1263 | over every run the log has one entry for every event that is not a bare heartbeat |
| RuntimeTrace.HeldAppends | apps/worker-supervisor/supervisor/runtime.py:1283-1287 | appending and truncating the held events gives the held part of the longer log |
| RuntimeAudit.AuditTrail.Persist | apps/api/app/routers/strategies.py:667-731 | the loop advances the watermark and writes the rows of the specification, and returns exactly the events it audited |
| RuntimeAudit.PollOfHeld | apps/api/app/routers/strategies.py:678-731 | polling a held log audits exactly the numbers past the watermark it still holds, after one gap record when some are gone |
| RuntimeAudit.AuditIsLedger | apps/api/app/routers/strategies.py:667-731 | over any interleaving of events and polls, stale ones included, the rows tile the numbers up to the watermark in order, every reported gap had been truncated, and gaps appear exactly when some poll came too late |
| RuntimeAudit.ExactlyOnce | apps/api/app/routers/strategies.py:667-731 | every number past the starting watermark and up to the current one is covered by exactly one row, audited or within a gap; every other by none |
| RuntimeAudit.TilesCoverOnce | apps/api/app/routers/strategies.py:667-731 | rows that tile a range cover each of its numbers once and no other |
| RuntimeAudit.TimelyPollsAuditEverything | apps/api/app/routers/strategies.py:667-731 | when no poll, stale ones included, comes after truncation passed the watermark, the audit table is exactly the log up to the watermark |
| RuntimeAudit.CurrentPolls | apps/api/app/routers/strategies.py:678-731 | polls that deliver the current trace leave the watermark at the last poll, and are all in time if and only if at most history_size events come between polls |
| RuntimeAudit.OftenEnoughAuditsEverything | apps/api/app/routers/strategies.py:667-731 | with such polls every event up to the last poll is audited exactly once, in order and without a gap record, if and only if at most history_size events come before the first poll and between any two |
| EventLog.WsManager.RememberDedupeKey | apps/api/app/ws_manager.py:77-86 | adds the key with its number unless known and evicts the oldest keys beyond the cache size, for that user only |
| EventLog.WsManager.EvictingRemember | apps/api/app/ws_manager.py:80-86 | the eviction loop drops exactly the oldest key when the window is full |
| EventLog.WsManager.PersistMemoryEvent | apps/api/app/ws_manager.py:129-153 | a push is suppressed or numbered, remembered and stored as the specification says, for that user only |
| EventLog.RememberReflects | apps/api/app/ws_manager.py:77-86 | after remembering, the window is the last accepted keys with their numbers |
| EventLog.StreamReflects | apps/api/app/ws_manager.py:129-153 | after any pushes events are numbered 1, 2, 3, ... without gaps, the history is the last H accepted ones, and the dedupe window is the last C accepted keys with increasing numbers |
| EventLog.SuppressedIffRecent | apps/api/app/ws_manager.py:133-136 | a push changes nothing if and only if its key is among the last C accepted keys |
| EventReplay.PageIsRange | apps/api/app/ws_manager.py:103-121 | a page past a cursor is the next run of numbers after the cursor or after the evicted ones |
| EventReplay.FirstPageIsNewest | apps/api/app/ws_manager.py:103-121 | without a cursor a page is the newest events |
| EventReplay.PageIsExact | apps/api/app/ws_manager.py:88-121 | whatever the cursor and the age limit, a page brings retained events past the cursor and recent enough, in increasing order, and leaves such events out only when full: later ones after a cursor, earlier ones without |
| EventReplay.SessionFaithful | apps/api/app/routers/events.py:14-37 | however pushes and reads interleave, following the cursor returns genuine events in strictly increasing order, and a number is passed over only if it had been evicted when that page was read |
| EventReplay.DrainReturnsHeld | apps/api/app/routers/events.py:29-36 | on a quiet stream reading until an empty page returns every retained event past the cursor exactly once |
| RateLimiter.InMemoryRateLimiter.CheckBlocked | apps/api/app/routers/auth.py:89-107 | prunes the key, reports a running lock, and clears an ended lock or an empty entry |
| RateLimiter.InMemoryRateLimiter.RegisterFailure | apps/api/app/routers/auth.py:109-128 | prunes, adds the failure, locks at the limit, and leaves the table valid and within its bound |
| RateLimiter.InMemoryRateLimiter.RegisterSuccess | apps/api/app/routers/auth.py:130-132 | forgets the key and nothing else |
| RateLimiter.InMemoryRateLimiter.TrimIfNeeded | apps/api/app/routers/auth.py:140-150 | the two loops drop idle keys, then the oldest ones, as the specification says |
| RateLimiter.TrimBounds | apps/api/app/routers/auth.py:140-150 | a trim fits the bound, keeps entries unchanged, does nothing within the bound, and drops a busy key only when no idle one is left |
| RateLimiter.EvictionKeepsNewest | apps/api/app/routers/auth.py:148-150 | what the second pass keeps is the most recently inserted keys |
| RateWindows.StoredAreNewest | apps/api/app/routers/auth.py:89-137 | over every clocked run, whatever the lockout, stored failures are time-sorted, fewer than the limit, and the newest of those registered |
| RateWindows.TrailInv | apps/api/app/routers/auth.py:89-137 | with a lockout no shorter than the window, every registered failure no longer stored has left the window or will have when the lock ends |
| RateWindows.WindowBound | apps/api/app/routers/auth.py:89-137 | with a lockout no shorter than the window, no half-open window holds more than the limit of registered failures |
| RateWindows.ShortLockoutLeaks | apps/api/app/routers/auth.py:89-137 | with a shorter lockout a burst and one attempt when it ends put one failure too many into a window |
| RateWindows.WindowBoundIffLongLockout | apps/api/app/routers/auth.py:89-137 | the bound holds over all runs if and only if the lockout is at least the window |
| RateWindows.SettingsBound | apps/api/app/routers/auth.py:89-137 | the same in the caller's settings, each counted as at least one |
| RateWindows.TableFollowsKeys | apps/api/app/routers/auth.py:89-150 | every call acts on its key as on that key alone, other keys change only by eviction, and nothing is evicted while there is room |
| RateWindows.TableBounded | apps/api/app/routers/auth.py:140-150 | over every run of calls the table never holds more than max_keys keys |
| RateWindows.TableWindowBound | apps/api/app/routers/auth.py:89-150 | in every run of calls on the table, whatever other keys do, no half-open window holds more than the limit of the failures a key registered since its last success or eviction, when each follows a check that let it pass |
| RateExact.LimiterRemembers | apps/api/app/routers/auth.py:89-137 | over every clocked run the pruned entry decides as a record of every failure would: an attempt is blocked exactly while a lock runs, and a lock starts exactly when the failures since the last one that are no older than the window reach the limit |
| RateExact.SettingsDecide | apps/api/app/routers/auth.py:89-137 | the same in the caller's settings of seconds, each at least one; a blocked caller is told the whole seconds left, at least one |
| RateExact.TableRemembers | apps/api/app/routers/auth.py:89-150 | the same for a key of the shared table, between its resets and evictions |
| RateTrim.TrimDrops | apps/api/app/routers/auth.py:140-150 | a trim leaves max_keys keys; a key without failures and lock is dropped only with every older such key, any other only with all of these and every older key |
| RateTrim.CallKeepsPlaces | apps/api/app/routers/auth.py:89-150 | every call keeps the places of the keys that stay and puts a new key last |
| Reconcile.ReconcileService.MarkSyncResult | apps/api/app/services/lighter_reconcile_service.py:127-303 | every pending record backs off, expires or is matched as a linear scan would match it, others are untouched, and the count is the number gone from pending to reconciled |
| Reconcile.ReconcileService.CreatePending | apps/api/app/services/lighter_reconcile_service.py:25-68 | a request without an id changes nothing; otherwise its record is made or started anew but for its creation time, and requests stay unique |
| Reconcile.ReconcileService.ExpirePending | apps/api/app/services/lighter_reconcile_service.py:70-98 | expires exactly the pending records created too long ago, returns their number and touches no other |
| Reconcile.ReconcileService.PruneExpired | apps/api/app/services/lighter_reconcile_service.py:100-125 | removes the outdated expired records, returns their number and keeps the rest in order |
| Reconcile.CreatedKeepsUnique | apps/api/app/services/lighter_reconcile_service.py:40-68 | creating never makes two records for one request |
| Reconcile.KeptIsExact | apps/api/app/services/lighter_reconcile_service.py:114-125 | exactly the expired records not updated since the retention time are removed |
| ReconcileRuns.AgeIsFirstCreation | apps/api/app/services/lighter_reconcile_service.py:40-98 | whatever happens to a record, the same request made again included, the age check expires it exactly when it is pending and was first created too long ago |
| ReconcileRuns.RequestsStartNew | apps/api/app/services/lighter_reconcile_service.py:57-68 | a request made, or made again, starts with a clean record |
| Reconcile.SyncIndex.constructor | apps/api/app/services/lighter_reconcile_service.py:151-177 | after the loops every lookup answers what a scan of the rows would |
| Reconcile.SyncIndex.AddOrder | apps/api/app/services/lighter_reconcile_service.py:157-165 | a later order replaces an earlier one with its id and joins its symbol |
| Reconcile.SyncIndex.AddTrade | apps/api/app/services/lighter_reconcile_service.py:167-175 | a trade replaces an earlier one of its order when at least as recent, and joins its symbol |
| Reconcile.SyncIndex.Resolve | apps/api/app/services/lighter_reconcile_service.py:221-303 | the candidate loops over the indexes find the match of the linear scan; the record carries it and is reconciled exactly when there is one, and its error count and backoff are cleared either way |
| Reconcile.RecencyTotal | apps/api/app/services/lighter_reconcile_service.py:587-603 | any two trades compare by recency |
| Reconcile.RecencyChains | apps/api/app/services/lighter_reconcile_service.py:587-603 | recency is transitive |
| ReconcileRuns.BestTradeIsNewest | apps/api/app/services/lighter_reconcile_service.py:167-173 | the trade kept for an order exists exactly when some trade carries the order, and no trade of the order is more recent |
| ReconcileRuns.TiesGoToLast | apps/api/app/services/lighter_reconcile_service.py:171-173 | of equally recent trades of an order the last synced one is kept |
| ReconcileRuns.FindOrderFinds | apps/api/app/services/lighter_reconcile_service.py:157-162 | the order found by id is the last synced one that carries it, and none is found exactly when none does |
| ReconcileRuns.FindByClientFinds | apps/api/app/services/lighter_reconcile_service.py:163-164 | the same for client ids |
| ReconcileRuns.FirstCarriedClient | apps/api/app/services/lighter_reconcile_service.py:245-254 | a client-id match is the first candidate some synced order carries, with that order and the newest trade of the order's own id |
| ReconcileRuns.FirstCarriedCandidate | apps/api/app/services/lighter_reconcile_service.py:237-243 | an order-id match is the first candidate some synced order or trade carries, with its order and its newest trade |
| ReconcileRuns.FallbackOnlyWhenUnique | apps/api/app/services/lighter_reconcile_service.py:256-275 | the symbol fallback needs a hash request and no other match, and gives the order or trade exactly when it is the only one of the symbol |
| ReconcileMatches.KeptTradeIsLatest | apps/api/app/services/lighter_reconcile_service.py:587-603 | of the trades of an order the kept one has the latest time in milliseconds, then the largest number, then the last text id, each compared by its own value |
| ReconcileMatches.ScalesAgree | apps/api/app/services/lighter_reconcile_service.py:606-615 | the same instant in seconds and in milliseconds counts as the same time |
| ReconcileMatches.FallbackDecides | apps/api/app/services/lighter_reconcile_service.py:256-266 | a record no candidate of which was found takes the order, and the trade, that is the only one of its symbol, exactly when its request starts with 0x |
| ReconcileMatches.MatchPrecedence | apps/api/app/services/lighter_reconcile_service.py:237-256 | order ids come before client ids and both before the symbol |
| ReconcileMatches.ReconciledNames | apps/api/app/services/lighter_reconcile_service.py:277-301 | a reconciled record names the order and trade of its match, and an unmatched one stays pending |
| ReconcileMatches.AmbiguityCounts | apps/api/app/services/lighter_reconcile_service.py:267-275 | rows the fallback could not choose between are counted |
| ReconcileMatches.FailureNotes | apps/api/app/services/lighter_reconcile_service.py:182-220 | a failed sync notes its error; inside a running backoff nothing else changes, outside the retry time is the delay from now |
| ReconcileMatches.ExpiryNotes | apps/api/app/services/lighter_reconcile_service.py:70-98 | a record expired for its age says when and why |
| ReconcileMatches.CreatedAnswers | apps/api/app/services/lighter_reconcile_service.py:38-68 | a request with an id has one pending record afterwards that knows what was asked, and other records are as they were |
| ReconcileRuns.RunPaced | apps/api/app/services/lighter_reconcile_service.py:182-220 | over every run of failed and successful syncs, age checks and repeated requests, counted errors never exceed the limit, each comes after the backoff of the one before, and the record gives up exactly at the limit |
| ReconcileRuns.ExpiryTakesAllWaits | apps/api/app/services/lighter_reconcile_service.py:182-220 | between its first counted error since the last success or request and giving up, a record waited out every backoff but the last, whatever the mix of error codes |
| ReconcileRuns.ExpiryOfOneCode | apps/api/app/services/lighter_reconcile_service.py:476-492 | for one error code that time is at least the sum of min(cap, base times doubling) |
| TradePages.Dedupe | apps/api/app/services/gateway_service.py:1718-1733 | the loop with its seen set returns the first row of each key |
| TradePages.FetchTrades | apps/api/app/services/gateway_service.py:666-717 | the page loop returns the deduplicated rows and warnings of the specification against any server |
| TradePages.DedupeExact | apps/api/app/services/gateway_service.py:1718-1733 | the result has no repeated key, every key of the input, and only rows of the input |
| TradePages.BoundaryDescends | apps/api/app/services/gateway_service.py:1784-1816 | the next request asks for trades below the oldest id seen, and that boundary strictly descends |
| TradePages.PagesInOrder | apps/api/app/services/gateway_service.py:666-717 | against a server of trades newest first the remaining pages are exactly the next trades, in order, with a warning only if some are left |
| TradePages.DownloadIsNewest | apps/api/app/services/gateway_service.py:643-717 | the download is the newest max_pages pages of trades, each once, newest first, with a warning exactly when some are missing |
| TradePages.CompleteIffPagesSuffice | apps/api/app/services/gateway_service.py:643-717 | it is every trade if and only if they fit in max_pages pages |
| TradeDownloads.RowTells | apps/api/app/services/gateway_service.py:1626-1679 | a row's side, order, maker flag and fee come from which account asked and which bid |
| TradeDownloads.FirstsKept | apps/api/app/services/gateway_service.py:1718-1733 | rows are told apart by trade, order and symbol, and the first of each is kept |
| TradeDownloads.TokenPages | apps/api/app/services/gateway_service.py:1777-1782 | against a server that pages by token the remaining pages are exactly the next trades |
| TradeDownloads.TokenDownload | apps/api/app/services/gateway_service.py:643-717 | the download from such a server is the newest trades that fit in the pages, each once, with a warning exactly when some are left |
| TradeDownloads.RepeatedPageNoticed | apps/api/app/services/gateway_service.py:694-698 | a page that comes again is dropped with a warning |
| TradeDownloads.FailureEnds | apps/api/app/services/gateway_service.py:676-690 | a failing request ends the download with its own warning |
| TradePages.TimedBoundary | apps/api/app/services/gateway_service.py:1798-1814 | against a server that also honours the time boundary, the next request asks for exactly the trades older than the millisecond in which the page ended |
| TradePages.TimedPages | apps/api/app/services/gateway_service.py:666-717 | from any position the remaining pages of such a server bring exactly the remaining trades when no page ends within a millisecond and the pages suffice, and fewer otherwise |
| TradePages.TimedCompleteIffCleanBreaks | apps/api/app/services/gateway_service.py:643-717 | the download from such a server is every trade if and only if the pages suffice and no page ends within a millisecond |
| TradePages.SplitMillisecondLost | apps/api/app/services/gateway_service.py:1798-1814 | an input: the older of two trades of one millisecond is never fetched and no warning says so |

## Left out

- IEEE rounding: prices, quantities and PnL are exact reals, so the tolerance test is the only inexact step modelled.
- Aliasing of cache entries: candles are values, so the copies the code makes before publishing have nothing to protect here.
- Thread and asyncio interleavings inside an operation; in particular `ensure_symbol` and `release_symbol` run outside the service lock in the code.
- Network plumbing: websocket loops, keepalives, retries and their delays, REST fetches and the pushes to clients. The candles and statuses that would be pushed are results or fields.
- `MarketDataService` before `start` and after `stop`, the senders of public connections, and the validation of interval, exchange and market names.
- OKX acknowledgements, which never leave the table of requests; replies follow the Binance rules.
- The order in which a synchronisation sends its requests is arbitrary in the model, where the code sorts the symbols.
- JSON, ISO timestamp text and payload sanitising; payloads are values or maps of text.
- The database backend of the event history and its pruning.
- SessionFaithful: sessions page without the `since_seconds` filter, which hides events by age on purpose; `PageIsExact` says what it does to a page.
- RuntimeRegistry start, stop and process liveness; only the application of queued events and the failure mark are modelled.
- TimelyPollsAuditEverything: says nothing of a row reused by a second runtime, whose watermark is not reset; `ExactlyOnce` covers any starting watermark.
- Spelling of reconcile candidates (the JSON fields they are dug from) and the classification of error texts into codes.
- CreatePending: the payload of a new request is taken to carry no sync bookkeeping of its own, which the code would keep apart from the retry time.
- The fallback delay of 30 seconds for codes outside the known ones, which the classifier never produces.
- OverlappingSyncsCountOnce: one account's table; the daily query adds up the fills of all of a user's accounts.
- UpsertFills: the quote quantity and raw JSON of a record are not modelled; neither enters the realized loss.
- DownloadIsNewest: the server pages by trade id, alone or together with the time boundary (`TimedCompleteIffCleanBreaks`), or by token (`TokenDownload`); rows without ids are part of the page loop but not of these servers.
- Downloaded rows leave out the quote amount, which nothing here reads.
- NormalizeIdempotent: letters outside ASCII, whose capitals Python may spell with other letters, keep their case here.
- ApplyRuntimeConfig: the code sorts the symbols it asks for; any order is allowed here.
- Risk rules, order placement, gateways' signing, authentication beyond the limiter, AI, templates, deployment scripts and the frontend: gates, wrappers and user interface with easy properties.
