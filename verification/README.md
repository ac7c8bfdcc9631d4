# Verified engines of the DutchKEM trading platform

A Dafny model of the stateful engines of the trading backend, with proofs of what they keep over whole runs: the
bar-by-bar backtest replay, the failover manager, the MT5 connection pool, the rate limiter, the two circuit breakers,
the state synchroniser, the candle batcher, the genetic optimizer with its projection, Parabolic SAR, Kelly sizing and
the asset weights. `dafny verify dfyconfig.toml` checks everything.

Each engine is written twice: as functions on values that say what one step does (a bar replayed, a critical section
passed, a buffer drained), and as the loop or class that does it in place, proved equal to those functions. The theorems
are about the functions, hence about the code: over every candle list, every interleaving, every history, every sequence
of random draws.

Prices, money, times and fitnesses are real numbers. The clock is a parameter; random choices are arbitrary; the trading
strategy and the fitness are arbitrary functions; Redis is a list of attempts that may fail at any of their four calls;
the time-series database is the list of batches written to it.

| module | source | subject |
|---|---|---|
| `Rounding`, `Sorting`, `Options`, `Dicts`, `Lists` | | Python's `round` and `sorted`, optional values, insertion-ordered dictionaries, extremes of a list |
| `Backtest`, `BacktestProofs`, `BacktestRisk`, `BacktestDrawdown`, `BacktestFalls`, `BacktestCausality`, `BacktestTrades` | backend/config/tasks.py | the replay engine |
| `Failover`, `FailoverProofs` | backend/infrastructure/failover_manager.py | failovers as a protocol of atomic steps |
| `Breakers` | backend/mcp_integration/services.py, backend/infrastructure/self_healing.py | the two circuit breakers against one stateless rule |
| `RateLimit` | backend/config/middleware.py | the sliding-window limiter against its full log |
| `ConnectionPool`, `ConnectionPoolProofs`, `ConnectionPoolHealth` | backend/infrastructure/mt5_pool.py | leases, capacity, round robin, health |
| `StateSync`, `StateSyncProofs` | backend/infrastructure/state_sync.py | the bounded buffer and its drain |
| `Ingestion` | backend/market_data/ingestion.py | batching by key |
| `Projection`, `Shares`, `ParamSpaces`, `Evolution` | backend/ml/genetic_optimizer.py | repair of genes, parameter spaces, elitist evolution |
| `Sar` | backend/ml/features.py | Parabolic SAR |
| `Kelly` | backend/ml/dynamic_kelly.py | Kelly sizing |
| `Allocation` | backend/ml/dynamic_allocation.py | asset weights |

## Where the code does less than intended

The model follows the code. The lemmas named here state exactly when the code meets the intent, and show cases in which
it does not.

- The replay engine looks one candle ahead: its ATR list is indexed one bar late, so bar k sees the range of candle k+1
  (`LookAheadIsReal`). Runs that agree up to bar k diverge exactly at bars that can open a position and whose two ATRs
  lead to different entries (`RunsDivergeExactlyAtEntries`); moving the index by one bar removes it
  (`ShiftedEngineIsCausal`).
- The streaming drawdown is the largest fall between any two points exactly when, at every bar with negative equity, the
  fall from the lowest positive point so far is no worse than the worst from the peak (`DrawdownIsLargestFallExactly`);
  with no negative equity it always is. `RuinousRun` gives 63 candles on which 500% is reported and 900% was lost.
- Two nodes become active if a failover starts from a node other than the active one, if the active node is moved by
  hand while a failover is under way, or if the active node has the empty id (`CommitKeepsSingleActive`,
  `SetActiveKeepsSingleActive`). A failover to an unregistered node raises half-way and no failover can ever begin
  again (`UnregisteredTargetWedges`, `WedgedForever`). A step keeps the safety of the manager exactly if it is allowed
  (`SafeExactlyIfAllowed`). A target that is found failed between its choice and the commit is promoted all the same
  (`FailedTargetIsPromoted`, `HandoverToFailedNode`).
- A comment says that a half-open breaker allows one request (backend/mcp_integration/services.py:41); the code allows
  any number until a result is recorded (`HalfOpenAdmitsAll`). With a threshold below one the MT5 breaker departs from the
  stateless rule exactly while no failure is on record (`ThresholdBelowOneExactly`).
- The self-healing breaker stays open through a success. On every history it has a rule of its own
  (`HealAnswersExactly`), and it meets the MT5 breaker's exactly when the last failure has timed out or it is still open
  just when the failures since the last success reach the threshold (`HealFollowsRuleExactly`); `LateSuccessIsForgotten`
  is a history on which it does not.
- USAGE_GUIDE.md:623 promises 1000 requests an hour; the code admits 1000 in any 60 seconds, so up to 60000 in an hour,
  and that many do pass (`SpanBound`, `HourOfBursts`).
- The books of the pool (in use exactly if leased, not leased while being reconnected) are kept exactly while nobody but
  its holder gives a connection up, nobody releases it during a reconnection and nobody reconnects it while it is leased
  (`SoundExactlyIfAllowed`). Each of the three can lead to the same connection being handed out twice
  (`StrayReleaseLeasesTwice`, `ReleaseInReconnectLeasesTwice`, `ReconnectInUseLeasesTwice`).
- The drain loop of the state synchroniser ends exactly when as many attempts have succeeded as there were items
  (`DrainEndsExactly`), so never while Redis is down. A failed item goes back behind newer writes of its key, so a drain
  may leave an old state as the latest (`DrainIsRobustExactlyIfAgreeing`). So may an undisturbed drain after writes of
  which some failed (`DrainAfterFailuresExactly`, `OlderStateReturns`).
- Two symbols share a buffer if one contains a colon (`SplitInvertsKey`, `ColonsCollide`).
- The projection clamps only when its twenty attempts run out, of which the first alone can repair anything
  (`ProjectionRepairsOnce`). It keeps every gene in its range, whatever the constraints, exactly in the spaces whose
  ranges satisfy `Tidy` (`ProjectionStaysExactlyIfTidy`), which the tuner's do; `RepairMayLeaveBounds` is one that does
  not. The entry-threshold constraint of the Gold Edge space and the weight-sum constraint of the ensemble space are
  never repaired (`ProjectionIsSound`, `EnsembleIsNeverRepaired`).
- `optimize` calls `_evolve`, which does not exist; it is read as `evolve`. The best fitness it reports belongs to the
  weights before they are normalised and rounded. In a tidy space it is that of the reported ones in every run exactly if
  the ranges of the space satisfy `Normal` (`ReportsAgreeExactly`), which those of the risk and ensemble spaces do and
  those of the Gold Edge space do not (`TunedReports`); `OptimizeOnes` is a run on which it is not.
- A Kelly fraction above the least without a net profit comes about exactly when there is enough to go by, the trades
  flagged as won sum to a loss, there is no net profit and the edge exceeds two percent (`ProfitNeededExactly`);
  `MislabelledWinsPay` gives ten such trades.
- Renormalising takes allocation weights out of the limits they were clipped to unless, with no stale asset, the clipped
  shares sum to exactly one (`LimitsKeptExactlyWithoutStale`, and `LimitsKeptExactly` with stale ones); with fewer than
  four assets it always does (`FewAssetsExceedTheMost`).
- After a flip the Parabolic SAR keeps the old trend's extreme point until the new trend goes beyond its first bar
  (`ExtremePointExactly`).

## Model

| member | source | states |
|---|---|---|
| Rounding.RoundError | backend/config/tasks.py:673 | rounding to d places moves an amount by at most half a unit of the last place |
| Rounding.NearestIntIsNearest | backend/config/tasks.py:700 | the rounded value is the nearest multiple, and of two equally near ones the even |
| Rounding.RoundExactly | backend/config/tasks.py:700 | rounding gives a number if and only if it is a multiple within half a step, a tie going to the even one |
| Backtest.ComputeAtrs | backend/config/tasks.py:625-631 | the list built by the two loops has, at i >= 14, the mean true range of candles i-12 to i+1 |
| Backtest.ManagePosition | backend/config/tasks.py:638-680 | an open position is closed at its stop, else at its target, else on time-out at the close, each by the candle; balance and trade list take the same P&L |
| Backtest.CheckEntry | backend/config/tasks.py:680-727 | a position is opened only when flat, with positive ATR, a full window and a strong enough signal |
| Backtest.TrackEquity | backend/config/tasks.py:729-742 | one bar of the equity, peak and drawdown loop is one step of `Track` |
| Backtest.ReplayBar | backend/config/tasks.py:634-742 | the body of the loop takes the state after one bar to the state after the next |
| Backtest.ReplayBars | backend/config/tasks.py:633-742 | the loop computes the replay of all bars from 50 on |
| Backtest.CloseRemaining | backend/config/tasks.py:744-760 | what is still open is closed at the last close |
| Backtest.RunBacktest | backend/config/tasks.py:582-790 | the report is the summary of the final state, or for fewer than 50 candles one of nothing but the initial balance |
| BacktestProofs.FinalBalanceIsConserved | backend/config/tasks.py:661-790 | the final balance is the initial one plus the exact P&L of every trade, and the last unrounded equity |
| BacktestProofs.RecordedPnlIsClose | backend/config/tasks.py:661-675 | the recorded P&Ls sum to the exact ones within half a cent a trade |
| BacktestProofs.TradesAreOrdered | backend/config/tasks.py:633-760 | trades do not overlap, are held at most max(1, max_bars) bars, and none starts before the window is full |
| BacktestTrades.ExitsAreFirstTouches | backend/config/tasks.py:638-760 | every trade of every run ends on the first bar after its entry that reaches stop or target or makes the time-out due: at the stop if that is reached, else at the target, else at the close; with no such bar, at the last close |
| BacktestTrades.EntriesAreAdvised | backend/config/tasks.py:679-727 | and began at the close of a bar whose window advised that side with a strength of 60, with stop and target at multiples of a positive ATR and the lots its balance could stake |
| BacktestTrades.NoEntryIsMissed | backend/config/tasks.py:679-727 | a trade begins on a bar if and only if it is so advised and no trade is open over it |
| BacktestTrades.AtrIsMeanSpan | backend/config/tasks.py:625-636 | the ATR a bar reads is the mean span of the fourteen candles up to the next one, or to the last |
| BacktestTrades.AtrTableStarts | backend/config/tasks.py:625-636 | the table of ATRs has an entry for every candle but the last, zero for the first fourteen |
| BacktestTrades.PnlIsGain | backend/config/tasks.py:654-663 | a lot earns 100000 times what the price moves the position's way |
| BacktestTrades.ReportTells | backend/config/tasks.py:761-789 | every figure of the report: what each trade says of its fill, the trades won and lost, balance, gain, rates, drawdown and curve, each rounded to its place |
| BacktestRisk.LotCost | backend/config/tasks.py:697-701 | lots are at least 0.01 and their stop costs at most the risked amount plus 1000 stop distances |
| BacktestRisk.TradeLossBound | backend/config/tasks.py:654-660 | a trade exited between its stop and target loses at most its allowance |
| BacktestRisk.EveryTradeIsBounded | backend/config/tasks.py:633-760 | every trade of every run exits between stop and target and loses at most the risked fraction of the balance at entry plus the rounding slack |
| BacktestRisk.CompoundingFloor | backend/config/tasks.py:633-760 | after k trades the balance is at least initial * (1-r)^k less the slacks, with no assumption on its sign |
| BacktestDrawdown.DrawdownIsWorstFall | backend/config/tasks.py:729-742 | the maximum drawdown is the worst percentage fall from the running peak over all bars, and is attained |
| BacktestFalls.FallFromHigher | backend/config/tasks.py:737-742 | falling from a higher point is the worse fall if and only if the equity fallen to is not negative |
| BacktestFalls.PeakFallsMostExactly | backend/config/tasks.py:737-742 | no point fell further to a bar than the peak did, if and only if its equity is not negative or every positive point before was the peak |
| BacktestFalls.PeakFallsMostInRun | backend/config/tasks.py:729-742 | the same of all bars of a run |
| BacktestFalls.DrawdownIsLargestFallExactly | backend/config/tasks.py:729-742 | the drawdown of a run is the largest fall between any two points if and only if at each bar of negative equity the fall from the lowest positive point is no worse than the worst from the peak |
| BacktestFalls.DrawdownOverPairs | backend/config/tasks.py:729-742 | with no negative equity it is |
| BacktestFalls.RuinousRun | backend/config/tasks.py:625-742 | 63 candles on which a run reports 500% and loses 900% of its initial balance |
| BacktestCausality.OneCandleAheadSuffices | backend/config/tasks.py:625-742 | candles 0 to k+1 decide the whole state after bar k |
| BacktestCausality.ShiftedEngineIsCausal | backend/config/tasks.py:636 | with the ATR index moved by one bar, candles 0 to k decide it |
| BacktestCausality.AtrMattersExactlyAtEntries | backend/config/tasks.py:680-727 | the ATR of a bar changes the state after it if and only if the bar can open a position and stop or target move |
| BacktestCausality.RunsDivergeExactlyAtEntries | backend/config/tasks.py:625-742 | runs on candles that agree up to bar k differ after it if and only if bar k can open a position and the two ATRs lead to different entries |
| BacktestCausality.LookAheadIsReal | backend/config/tasks.py:636 | two candle lists that agree up to bar 60 and differ in the state after it |
| Failover.FailoverManager.RegisterNode | backend/infrastructure/failover_manager.py:50-66 | the node table afterwards, a re-registration included |
| Failover.FailoverManager.SetActiveNode | backend/infrastructure/failover_manager.py:68-78 | the old active node, if any, is demoted and the new one promoted |
| Failover.FailoverManager.RecordHeartbeat | backend/infrastructure/failover_manager.py:80-98 | the time of the heartbeat is kept and nothing counts as missed; a failed node, and no other, comes back as standby; an unknown one is refused |
| Failover.FailoverManager.CheckFailures | backend/infrastructure/failover_manager.py:100-133 | the scan marks and lists exactly what `CheckAll` and `NewFailures` say |
| Failover.FailoverManager.SelectBackupNode | backend/infrastructure/failover_manager.py:205-219 | the scan finds what `Select` defines |
| Failover.FailoverManager.BeginFailover | backend/infrastructure/failover_manager.py:140-151 | the first critical section: refused while one is in progress or without a registered source |
| Failover.FailoverManager.CommitFailover | backend/infrastructure/failover_manager.py:160-165 | the second critical section, with the half-done state left by an unregistered target |
| Failover.FailoverManager.TriggerFailover | backend/infrastructure/failover_manager.py:135-183 | the three parts in sequence, and whether it hands over, is refused or raises |
| Failover.FailoverManager.TriggerRecovery | backend/infrastructure/failover_manager.py:185-203 | only a failed node is put into recovery |
| Failover.FailoverManager.RunMonitorRound | backend/infrastructure/failover_manager.py:267-282 | one round of the monitor loop is the check followed by the reactions, in order |
| FailoverProofs.ApplyKeepsSafe | backend/infrastructure/failover_manager.py:50-203 | every allowed atomic step keeps the invariant |
| FailoverProofs.SafeExactlyIfAllowed | backend/infrastructure/failover_manager.py:50-203 | and a step keeps it if and only if it is allowed |
| FailoverProofs.RunIsSafe | backend/infrastructure/failover_manager.py:50-203 | the invariant holds after every allowed interleaving of any length |
| FailoverProofs.AtMostOneActive | backend/infrastructure/failover_manager.py:135-183 | never two active nodes, and at most one failover between its critical sections |
| FailoverProofs.CommitKeepsSingleActive | backend/infrastructure/failover_manager.py:160-165 | a commit leaves one active node if and only if the active node is its source, its target, or not marked active |
| FailoverProofs.SetActiveKeepsSingleActive | backend/infrastructure/failover_manager.py:68-78 | promoting a node leaves one active node if and only if the old active node does not have the empty id, or is not active |
| FailoverProofs.SourceMustBeActive | backend/infrastructure/failover_manager.py:144-165 | a failover from another node leaves two active |
| FailoverProofs.ActiveMustNotMove | backend/infrastructure/failover_manager.py:68-78 | moving the active node between the two critical sections leaves two active |
| FailoverProofs.IdMustNotBeEmpty | backend/infrastructure/failover_manager.py:68-78 | a node with the empty id stays active beside the next one promoted |
| FailoverProofs.UnregisteredTargetWedges | backend/infrastructure/failover_manager.py:160-165 | a commit leaves the manager in progress with nothing under way if and only if the target is not registered |
| FailoverProofs.WedgedForever | backend/infrastructure/failover_manager.py:140-142 | from then on no sequence of steps starts a failover |
| FailoverProofs.FailedTargetIsPromoted | backend/infrastructure/failover_manager.py:153-165 | a check between choice and commit leaves the target failed if and only if it was failed or is overdue, and the commit promotes it all the same |
| FailoverProofs.HandoverToFailedNode | backend/infrastructure/failover_manager.py:100-165 | an allowed run that hands over to a node it has just marked failed |
| FailoverProofs.CheckFailsExactlyTheStale | backend/infrastructure/failover_manager.py:100-133 | newly failed are exactly the non-failed nodes whose heartbeat is older than threshold * interval |
| FailoverProofs.CheckCounts | backend/infrastructure/failover_manager.py:100-133 | of an overdue node the check notes the whole intervals it missed, and counts its failure if it had not failed before; other nodes it leaves alone |
| FailoverProofs.HeartbeatsCount | backend/infrastructure/failover_manager.py:50-98 | after any sequence of steps the heartbeat of a node is the time it was last registered or heard of |
| FailoverProofs.SilenceFailsExactly | backend/infrastructure/failover_manager.py:100-133 | so after any allowed run a check newly fails a node if and only if it is registered, not failed, and was last heard of more than threshold * interval ago |
| FailoverProofs.HeartbeatRevives | backend/infrastructure/failover_manager.py:80-98 | a heartbeat changes that node alone, and of it the time, the count of missed beats and a failed status |
| FailoverProofs.SelectIsBest | backend/infrastructure/failover_manager.py:205-219 | the backup is the first registered among the eligible of highest priority, or none is eligible |
| FailoverProofs.RecoveryIsOfTheFailed | backend/infrastructure/failover_manager.py:185-203 | a failed node, and no other, is put into recovery, and of it nothing else changes but what it missed |
| FailoverProofs.QuietRound | backend/infrastructure/failover_manager.py:267-282 | a round in which the active node does not newly fail does no more than the check |
| FailoverProofs.TriggerDoesWhatItSays | backend/infrastructure/failover_manager.py:135-183 | handed over, the target is active and normal work resumes; refused, nothing has changed; raised, the source is failed and a failover counts as in progress |
| FailoverProofs.AutomaticFailover | backend/infrastructure/failover_manager.py:135-183 | a failover from the failed active node hands over to the best backup and changes nothing else |
| FailoverProofs.FailingRound | backend/infrastructure/failover_manager.py:267-282 | a round in which it fails ends with the best fresh node as the only active one, or with the active node in place if there is none |
| Breakers.McpBreaker.RecordFailure | backend/mcp_integration/services.py:22-27 | keeps the recorded history and the fields in step |
| Breakers.McpBreaker.RecordSuccess | backend/mcp_integration/services.py:29-31 | likewise |
| Breakers.McpBreaker.AllowRequest | backend/mcp_integration/services.py:33-41 | answers as the stateless rule does on the whole history |
| Breakers.McpFollowsRule | backend/mcp_integration/services.py:14-41 | on every history with a clock that does not run back: allowed if and only if the failures since the last success are below the threshold or the last one is older than the time-out |
| Breakers.ThresholdBelowOneExactly | backend/mcp_integration/services.py:22-41 | with a threshold below one it follows the rule if and only if there is a failure since the last success or the last one has timed out |
| Breakers.RequestsChangeNothing | backend/mcp_integration/services.py:33-41 | asking any number of times never changes the answer of the rule |
| Breakers.HalfOpenAdmitsAll | backend/mcp_integration/services.py:41 | a half-open breaker of either kind stays half-open and lets every request through |
| Breakers.CleanTracesAgree | backend/infrastructure/self_healing.py:35-60 | without a success while open and without forced recovery, the two breakers answer alike |
| Breakers.HealFollowsRule | backend/infrastructure/self_healing.py:35-60 | so the self-healing breaker follows the same rule there |
| Breakers.OpenExactlyIfStillOpen | backend/infrastructure/self_healing.py:35-60 | on every history it is open if and only if some failure reached the threshold and no forced recovery, nor a request after the time-out, came later |
| Breakers.HealAnswersExactly | backend/infrastructure/self_healing.py:50-60 | on every history it allows a request if and only if it is not still open in that sense or the last failure has timed out |
| Breakers.HalfOpenExactlyIfOnTrial | backend/infrastructure/self_healing.py:35-60 | on every history it is half-open if and only if it was half-opened while still open and neither a success nor a failure that reaches the threshold came later |
| Breakers.HealFollowsRuleExactly | backend/infrastructure/self_healing.py:35-60 | on every history it answers as the MT5 breaker's rule if and only if the last failure has timed out, or it is still open just when the failures since the last success reach the threshold |
| Breakers.SuccessWhileOpenDiverges | backend/infrastructure/self_healing.py:35-40 | right after a success while still open it meets that rule if and only if the time-out has passed |
| Breakers.RecoveryWhileOpenDiverges | backend/infrastructure/self_healing.py:504-517 | right after a forced recovery while still open it meets the rule if and only if the time-out has passed or the failures since the last success are below the threshold |
| Breakers.LateSuccessIsForgotten | backend/infrastructure/self_healing.py:35-60 | a history on which the rule allows a request that the breaker refuses |
| Breakers.HealingBreaker.RecordSuccess | backend/infrastructure/self_healing.py:35-40 | the step of the model, in place |
| Breakers.HealingBreaker.RecordFailure | backend/infrastructure/self_healing.py:42-48 | the step of the model, in place |
| Breakers.HealingBreaker.ShouldAllowRequest | backend/infrastructure/self_healing.py:50-60 | the step of the model, in place, and its answer |
| Breakers.SelfHealingSystem.GetCircuitBreaker | backend/infrastructure/self_healing.py:469-473 | one breaker a service, made on first use and never replaced |
| Breakers.SelfHealingSystem.CanExecute | backend/infrastructure/self_healing.py:475-477 | moves that service's breaker and no other |
| Breakers.SelfHealingSystem.RecordServiceResult | backend/infrastructure/self_healing.py:479-484 | moves that service's breaker and no other |
| Breakers.SelfHealingSystem.AttemptRecovery | backend/infrastructure/self_healing.py:504-517 | half-opens that service's breaker exactly if it is open, and no other |
| RateLimit.RateLimitMiddleware.Call | backend/config/middleware.py:67-90 | passes exactly the requests the never-pruned log admits; in debug mode all, unrecorded |
| RateLimit.RateLimitMiddleware.Prune | backend/config/middleware.py:73-78 | a client's list becomes its admissions of the last 60 seconds |
| RateLimit.PruningTwice | backend/config/middleware.py:76-78 | pruning at an earlier time does not change what pruning later keeps |
| RateLimit.PrunedListSuffices | backend/config/middleware.py:73-81 | pruning the pruned list gives what pruning the whole log would |
| RateLimit.PrunedStep | backend/config/middleware.py:73-88 | each request keeps the lists equal to the pruned logs |
| RateLimit.WindowBound | backend/config/middleware.py:80-88 | no half-open 60-second interval, wherever it starts, holds more admissions than the client's largest limit |
| RateLimit.WindowBounds | backend/config/middleware.py:80 | at most 1000, and 100 for a client that never authenticates |
| RateLimit.AdmitsExactly | backend/config/middleware.py:76-88 | a request passes if and only if fewer than 1000 of its client's requests, or 100 if it is anonymous, passed within the last 60 seconds |
| RateLimit.SpanBound | backend/config/middleware.py:70-88 | m minutes hold at most m times the limit, wherever they start |
| RateLimit.HourOfBursts | backend/config/middleware.py:70-88 | a run in which 60000 requests of one client pass within an hour |
| RateLimit.BurstsAreTimely | backend/config/middleware.py:70 | the clock of that run never runs back |
| RateLimit.ClientsAreIsolated | backend/config/middleware.py:69-88 | deleting all other clients' requests changes no decision about a client |
| ConnectionPool.MT5Connection.Acquire | backend/infrastructure/mt5_pool.py:36-42 | succeeds exactly on an idle connection |
| ConnectionPool.MT5Connection.MarkError | backend/infrastructure/mt5_pool.py:48-50 | the connection afterwards |
| ConnectionPool.MT5ConnectionPool.SelectConnection | backend/infrastructure/mt5_pool.py:84-123 | the choice of each strategy, and when the turn moves on |
| ConnectionPool.MT5ConnectionPool.AcquireConnection | backend/infrastructure/mt5_pool.py:150-172 | the pool afterwards and the id handed out |
| ConnectionPool.MT5ConnectionPool.ReleaseConnection | backend/infrastructure/mt5_pool.py:174-178 | the named connection becomes idle, whatever it was |
| ConnectionPool.MT5ConnectionPool.UpdateLatency | backend/infrastructure/mt5_pool.py:180-184 | notes the latency of the named connection alone |
| ConnectionPool.MT5ConnectionPool.RunHealthCheck | backend/infrastructure/mt5_pool.py:186-212 | keeps exactly the connections neither failed nor closed, with fewer than five errors and not too old; the counts it reports, of which "unhealthy" is always 0 |
| ConnectionPool.MT5ConnectionPool.LookUp | backend/infrastructure/mt5_pool.py:216-219 | finds the pooled connection of an id, if there is one |
| ConnectionPool.MT5ConnectionPool.StartReconnect | backend/infrastructure/mt5_pool.py:221-222 | marks the connection, also one dropped since it was looked up |
| ConnectionPool.MT5ConnectionPool.FinishReconnect | backend/infrastructure/mt5_pool.py:224-250 | ends the reconnection, also of a connection dropped meanwhile |
| ConnectionPoolProofs.SoundExactlyIfAllowed | backend/infrastructure/mt5_pool.py:150-250 | an operation keeps the invariant if and only if it is allowed |
| ConnectionPoolProofs.HoldersMayGiveUp | backend/infrastructure/mt5_pool.py:44-50 | a holder may always release its connection or mark it failed |
| ConnectionPoolProofs.RunIsSound | backend/infrastructure/mt5_pool.py:150-250 | in every allowed run a pooled connection is in use if and only if it is leased, ids increase, and the pool keeps its size |
| ConnectionPoolProofs.RunIsOnward | backend/infrastructure/mt5_pool.py:150-157 | over any run the counter never falls, and an id dropped from the pool never comes back |
| ConnectionPoolProofs.NewIdsAreNew | backend/infrastructure/mt5_pool.py:150-172 | a created connection has an id that was handed out at no earlier point of the run |
| ConnectionPoolProofs.LeasesAreExclusive | backend/infrastructure/mt5_pool.py:159-172 | what is handed out is leased to nobody |
| ConnectionPoolProofs.AcquireFailsExactlyWhenExhausted | backend/infrastructure/mt5_pool.py:159-172 | acquire returns None if and only if the pool is full with nothing idle and healthy |
| ConnectionPoolProofs.StrayReleaseLeasesTwice | backend/infrastructure/mt5_pool.py:174-178 | a release by another than its holder hands a leased connection out again |
| ConnectionPoolProofs.ReleaseInReconnectLeasesTwice | backend/infrastructure/mt5_pool.py:174-231 | so does a release during a reconnection, once leased before that ends |
| ConnectionPoolProofs.ReconnectInUseLeasesTwice | backend/infrastructure/mt5_pool.py:214-231 | so does reconnecting a connection in use |
| ConnectionPoolProofs.TurnsAreFair | backend/infrastructure/mt5_pool.py:105-111 | any k turns in a row hit each of k places once, any number hits no two unevenly |
| ConnectionPoolProofs.RepeatedPairs | backend/infrastructure/mt5_pool.py:159-178 | n acquire/release pairs add to each use count exactly the turns that hit it |
| ConnectionPoolProofs.RoundRobinIsFair | backend/infrastructure/mt5_pool.py:84-111 | over k idle healthy connections k pairs use each once, and n pairs differ by at most one |
| ConnectionPoolHealth.CheckKeepsTheFit | backend/infrastructure/mt5_pool.py:186-205 | a health check leaves exactly the fit connections, as they are and in their order |
| ConnectionPoolHealth.CheckDropsTheUnfit | backend/infrastructure/mt5_pool.py:186-205 | with distinct ids one leaves the pool at a check if and only if it has failed, has five errors, or is too old |
| ConnectionPoolHealth.InStateIsCardinality | backend/infrastructure/mt5_pool.py:207-212 | the counts it reports are the numbers of connections in each state |
| ConnectionPoolHealth.CreatedExactly | backend/infrastructure/mt5_pool.py:150-172 | with none idle and healthy and room left, an acquisition adds one new connection, used once, with the next id |
| ConnectionPoolHealth.ReconnectionExactly | backend/infrastructure/mt5_pool.py:221-250 | a success frees the connection, forgives one error and is counted; a failure leaves it failed |
| ConnectionPoolHealth.UpStaysPooled | backend/infrastructure/mt5_pool.py:150-250 | through any further steps a connection stays pooled until it is marked failed, fails a reconnection, or is found too old |
| ConnectionPoolHealth.ChoiceIsPreferred | backend/infrastructure/mt5_pool.py:84-123 | what is chosen is idle and healthy, and the first of the least used, or of the fastest; nothing is chosen if and only if none is idle and healthy |
| StateSync.StateBuffer.Put | backend/infrastructure/state_sync.py:30-39 | the oldest item makes room for the newest; with room for none it raises |
| StateSync.StateBuffer.Dequeue | backend/infrastructure/state_sync.py:41-45 | takes the oldest, or says there is none |
| StateSync.StateSynchronizer.SyncState | backend/infrastructure/state_sync.py:93-128 | store and buffer after an attempt that may fail before or after each call to Redis |
| StateSync.StateSynchronizer.ProcessBufferedSyncs | backend/infrastructure/state_sync.py:225-234 | ends in as many turns as there are items and failures; what it leaves, and the number it returns |
| StateSyncProofs.OutageKeepsTheLast | backend/infrastructure/state_sync.py:30-39 | the buffer holds the last max_size of everything written during an outage |
| StateSyncProofs.DrainInOrder | backend/infrastructure/state_sync.py:225-234 | a drain with no failure writes the buffer in order |
| StateSyncProofs.OutageIsInvisible | backend/infrastructure/state_sync.py:93-128 | if the buffer can hold the outage, draining it leaves the store, histories included, as with no outage |
| StateSyncProofs.AttemptExactly | backend/infrastructure/state_sync.py:93-128 | what an attempt leaves behind, by the call at which it fails |
| StateSyncProofs.HistoryIsNewestFirst | backend/infrastructure/state_sync.py:113-116 | the history of a key is the last hundred states written under it, newest first |
| StateSyncProofs.OverflowLosesExactly | backend/infrastructure/state_sync.py:30-39 | otherwise the latest states survive if and only if every key whose write was dropped is written again or agrees |
| StateSyncProofs.AgreeingDrain | backend/infrastructure/state_sync.py:225-234 | if no key is buffered with two states, any failures on the way leave the latest states right |
| StateSyncProofs.DrainIsRobustExactlyIfAgreeing | backend/infrastructure/state_sync.py:124-128 | a drain is right whatever fails on the way if and only if no key is buffered with two states |
| StateSyncProofs.DrainAfterFailuresExactly | backend/infrastructure/state_sync.py:93-128 | after writes of which at most max_size failed, and a drain, the latest states are right if and only if for every key with a failed write the last failed one has the state of the last one |
| StateSyncProofs.OlderStateReturns | backend/infrastructure/state_sync.py:93-128 | two writes after which the drain puts the older state back |
| StateSyncProofs.TurnsLeaveExactly | backend/infrastructure/state_sync.py:225-234 | after any attempts the buffer is shorter by exactly those that succeeded, down to empty |
| StateSyncProofs.DrainEndsExactly | backend/infrastructure/state_sync.py:225-234 | the loop has ended if and only if as many attempts succeeded as there were items |
| StateSyncProofs.NoEndWhileDown | backend/infrastructure/state_sync.py:225-234 | while every attempt fails no number of turns shortens the buffer |
| Ingestion.SplitInvertsKey | backend/market_data/ingestion.py:16-34 | a key splits back into what it was made of if and only if the symbol has no colon |
| Ingestion.ColonsCollide | backend/market_data/ingestion.py:16 | otherwise two symbols share a key |
| Ingestion.ExactlyOnce | backend/market_data/ingestion.py:15-37 | batches then buffer of a symbol and timeframe are its candles, in order, once each |
| Ingestion.MarketDataIngestion.Flush | backend/market_data/ingestion.py:25-37 | empties one key, or all, and loses and repeats nothing |
| Ingestion.MarketDataIngestion.IngestCandle | backend/market_data/ingestion.py:15-23 | one more arrival, which waits until a hundred do and then leaves with them in one batch |
| Ingestion.MarketDataIngestion.IngestOhlcv | backend/market_data/ingestion.py:42-55 | the bars with six fields arrive in order and nothing of the key is left waiting |
| Ingestion.ConvertTells | backend/market_data/ingestion.py:42-53 | each bar of six fields is one more arrival with its open, high, low, close and volume in their places, and shorter ones are skipped |
| Ingestion.SyncHistorical | backend/market_data/ingestion.py:57-62 | the batches concatenate to the input, all but the last of size 500 |
| Projection.GeneTable.ProjectToFeasible | backend/ml/genetic_optimizer.py:1187-1230 | the loop in place is the projection `Project`, early return and final clamp included |
| Projection.GeneTable.FixWeightsInPlace | backend/ml/genetic_optimizer.py:1203-1209 | every weight divided by the old total, not by a running one |
| Projection.GeneTable.FixBordersInPlace | backend/ml/genetic_optimizer.py:1211-1216 | the four borders come out in ascending order, the same four values, and no other gene changes |
| Sorting.SortedSorts | backend/ml/genetic_optimizer.py:1214 | the sorted list is in order and holds each number as often |
| Projection.SortedBordersAreOrdered | backend/ml/genetic_optimizer.py:1211-1216 | the border constraint holds afterwards if and only if the four borders were distinct |
| Projection.GeneTable.ClampInPlace | backend/ml/genetic_optimizer.py:1227-1230 | every bounded gene put within its range, the others left |
| Projection.GeneTable.NormaliseInPlace | backend/ml/genetic_optimizer.py:1232-1243 | every weight divided by the old total and rounded |
| Projection.GoldRepairSettles | backend/ml/genetic_optimizer.py:1203-1225 | one repair keeps Gold Edge genes in bounds, and a second changes nothing: no repair undoes another |
| Projection.ProjectionIsOneRepair | backend/ml/genetic_optimizer.py:1187-1230 | within the Gold Edge bounds the whole projection is one repair, made only if a constraint fails |
| Projection.ProjectionIsSound | backend/ml/genetic_optimizer.py:1187-1230 | of Gold Edge genes: it ends in bounds with borders, ATR and target in order, gene by gene; the weights sum to one within 0.02 if and only if their sum was positive, and to one if they were divided; the entry thresholds are in order if and only if they were |
| Projection.SingleGeneAccepted | backend/ml/genetic_optimizer.py:175-203 | which values of one gene alone satisfy the constraints, the missing ones counting as their defaults |
| Projection.ProjectionOutcome | backend/ml/genetic_optimizer.py:1187-1230 | genes with weights near one, target beyond stop and thresholds in order are returned as they are; of others each weight is divided by the sum and the target put half a unit beyond the stop |
| Projection.ProjectionIsIdleExactly | backend/ml/genetic_optimizer.py:1187-1230 | it changes nothing if and only if they are such, or the sum is one or nothing with target beyond stop |
| Projection.NormalisedAlready | backend/ml/genetic_optimizer.py:1232-1243 | normalising changes nothing if and only if a weight is missing, the sum is not positive, or every weight is a multiple of 1/10000 to which its share rounds |
| Projection.RepairMayLeaveBounds | backend/ml/genetic_optimizer.py:1222-1225 | bounds in which a repaired target ends above its range |
| Projection.CompositeAcceptsExactly | backend/gold_edge/ge_composite.py:82-84 | weights are accepted if and only if they sum to between 0.99 and 1.01 |
| Projection.NormalisedIsAccepted | backend/gold_edge/ge_composite.py:82-84 | normalised weights sum to one within 0.0002, and the composite accepts them if and only if their sum was positive |
| Shares.ShareRangeIsExact | backend/ml/genetic_optimizer.py:1203-1209 | when a number divided by its sum with others always stays within its range, decided by the ends of the ranges |
| ParamSpaces.WeightsExactly | backend/ml/genetic_optimizer.py:1203-1209 | normalising keeps all weights of a space in range if and only if every weight's ends pass that test |
| ParamSpaces.BordersExactly | backend/ml/genetic_optimizer.py:1211-1216 | sorting keeps all borders of a space in range if and only if the lower and the upper ends ascend |
| ParamSpaces.AtrExactly | backend/ml/genetic_optimizer.py:1218-1220 | the ATR repair keeps all genes in range if and only if the two ranges do not overlap or leave room for the repair |
| ParamSpaces.TargetExactly | backend/ml/genetic_optimizer.py:1222-1225 | the same of the target repair |
| ParamSpaces.RepairExactly | backend/ml/genetic_optimizer.py:1203-1225 | the whole repair keeps all genes of a space in range if and only if the space is tidy |
| ParamSpaces.RepairIsIdempotent | backend/ml/genetic_optimizer.py:1203-1225 | whatever the genes, a second repair changes nothing |
| ParamSpaces.ProjectionRepairsOnce | backend/ml/genetic_optimizer.py:1187-1230 | so of twenty attempts one repairs: the genes if the constraints hold, else the repaired ones if they hold of those, else those put into their ranges |
| ParamSpaces.ProjectionStaysExactlyIfTidy | backend/ml/genetic_optimizer.py:1187-1230 | the projection, under all constraints, keeps the genes of a space in range if and only if it is tidy |
| ParamSpaces.TunedSpacesAreTidy | backend/ml/genetic_optimizer.py:119-241 | the three spaces the tuner uses are tidy |
| ParamSpaces.GoldSpaceSays | backend/ml/genetic_optimizer.py:119-164 | what each parameter of the Gold Edge space may be |
| ParamSpaces.RiskSpaceExactly | backend/ml/genetic_optimizer.py:206-218 | genes are of the risk space if and only if they have its six parameters, each in its range |
| ParamSpaces.EnsembleSpaceExactly | backend/ml/genetic_optimizer.py:223-231 | and of the ensemble space if and only if they have its four weights, between nothing and one |
| ParamSpaces.EnsembleIsNeverRepaired | backend/ml/genetic_optimizer.py:223-241 | the projection changes no genes of the ensemble space, under any constraints |
| ParamSpaces.NormalisingIsIdleExactly | backend/ml/genetic_optimizer.py:1232-1243 | normalising changes no genes of a space if and only if a weight is missing, their sum is never positive, or each weight has one value only and those are normal |
| Evolution.Sample | backend/ml/genetic_optimizer.py:1117 | distinct members of the population |
| Evolution.FirstBest | backend/ml/genetic_optimizer.py:1118 | the first of the greatest |
| Evolution.Rank | backend/ml/genetic_optimizer.py:1078 | all members, fittest first, ties in their old order |
| Evolution.Statistics | backend/ml/genetic_optimizer.py:998-1001 | the greatest and least score, both attained, and the mean |
| Evolution.Chromosome.Clone | backend/ml/genetic_optimizer.py:70-74 | equal genes and fitness in a table of its own |
| Evolution.GeneticOptimizer.InitializePopulation | backend/ml/genetic_optimizer.py:1164-1174 | population_size members within the space, sharing nothing |
| Evolution.GeneticOptimizer.SelectParents | backend/ml/genetic_optimizer.py:1106-1119 | a winner at least as fit as three distinct members, or as all of a smaller population |
| Evolution.GeneticOptimizer.Crossover | backend/ml/genetic_optimizer.py:1121-1138 | a new table with every gene of either parent, each with the value of one of them |
| Evolution.GeneticOptimizer.Mutate | backend/ml/genetic_optimizer.py:1140-1162 | a new table in which replaced genes lie in their range and the others are unchanged |
| Evolution.GeneticOptimizer.Breed | backend/ml/genetic_optimizer.py:1086-1102 | a child of two winners of tournaments of three, built without writing to them: crossed, mutated and projected, or at a rate of nothing not crossed, not mutated |
| Evolution.ParentsOutrankTwo | backend/ml/genetic_optimizer.py:1086-1119 | of three or more members a parent is at least as fit as two others, so the two worst never breed |
| Evolution.GeneticOptimizer.Evolve | backend/ml/genetic_optimizer.py:1064-1104 | same size; the first members copy the fittest in order; no object or gene table shared with the old population, which is unchanged |
| Evolution.GeneticOptimizer.Assess | backend/ml/genetic_optimizer.py:989-995 | the fitness of every member is what it is worth, less 5 if it breaks a constraint |
| Evolution.GeneticOptimizer.Record | backend/ml/genetic_optimizer.py:998-1008 | the history entry, and the best so far replaced only by something better |
| Evolution.GeneticOptimizer.Optimize | backend/ml/genetic_optimizer.py:954-1062 | all generations evaluated have the population's size and follow one another; the best fitness is at least every score of the run and is attained or was there before; when it raises; what it returns |
| Evolution.OffspringInSpace | backend/ml/genetic_optimizer.py:1121-1162 | crossover, mutation and projection keep genes within a tidy space |
| Evolution.FrontIsBest | backend/ml/genetic_optimizer.py:1078-1082 | the first survivor has the best score of its generation |
| Evolution.BestNeverFalls | backend/ml/genetic_optimizer.py:987-1024 | over any run the best score of a generation never falls, whatever is drawn |
| Evolution.LastGenerationHoldsTheBest | backend/ml/genetic_optimizer.py:987-1024 | the last generation holds a score as good as any of the run |
| Evolution.BestEverIsTheLastBest | backend/ml/genetic_optimizer.py:1006-1008 | the best fitness of a first run is the best score of its last generation |
| Evolution.ReportedIsWorthMost | backend/ml/genetic_optimizer.py:987-1008 | what a first run reports is worth, less 5 for a broken constraint, at least what anything it evaluated is |
| Evolution.FeasibleIsReported | backend/ml/genetic_optimizer.py:992-1008 | it satisfies every constraint if something it evaluated does and beats all that do not, less 5; and breaks one if something that breaks one beats, less 5, all that do not |
| Evolution.HistoryNeverWorsens | backend/ml/genetic_optimizer.py:998-1003 | the best of the history never falls, and the average lies between worst and best |
| Evolution.RunStaysInSpace | backend/ml/genetic_optimizer.py:987-1024 | in a tidy space every chromosome the run evaluates is within it |
| Evolution.ReportsAgreeExactly | backend/ml/genetic_optimizer.py:1030-1040 | in a tidy space the reported fitness is that of the reported genes, in every run and whatever is optimized, if and only if the ranges of the space are such |
| Evolution.TunedReports | backend/ml/genetic_optimizer.py:1267-1400 | so it is in the risk and ensemble spaces, and not in the Gold Edge space |
| Evolution.OptimizeOnes | backend/ml/genetic_optimizer.py:954-1062 | a client of the optimizer to whom every run reports 1.0 for genes worth 0.25 |
| Sar.Advance | backend/ml/features.py:441-470 | the body of the loop is one step of the recurrence |
| Sar.ParabolicSar | backend/ml/features.py:428-472 | the array holds the recurrence at every bar |
| Sar.StaysInRange | backend/ml/features.py:428-472 | SAR and extreme point stay within the lowest low and highest high so far, the factor within its bounds |
| Sar.KeepsItsSide | backend/ml/features.py:441-470 | without a flip the SAR is beyond the bar and the two before it; a flip puts it on the old extreme point |
| Sar.MovesExactly | backend/ml/features.py:443-463 | a bar ends the trend if and only if it goes beyond the SAR's next place and the two bars before; while it lasts the SAR moves its share of the way to the extreme point, but not past those bars |
| Sar.ExtremesOfTheTrend | backend/ml/features.py:441-470 | the tracked high (low) is the highest (lowest) since the trend began |
| Sar.FactorCountsExtremes | backend/ml/features.py:447-470 | the factor is the start plus a step for every new extreme of the trend, up to the most |
| Sar.ExtremePointOfTheTrend | backend/ml/features.py:441-470 | the extreme point is the trend's extreme once that is beyond the first bar, and the old trend's until then |
| Sar.ExtremePointExactly | backend/ml/features.py:441-470 | it is the trend's extreme if and only if a new one has been made or the old equals the first bar's |
| Kelly.DynamicKelly.RecordTrade | backend/ml/dynamic_kelly.py:33-38 | the history is the last 200 of every trade ever recorded |
| Kelly.DynamicKelly.CalculateKelly | backend/ml/dynamic_kelly.py:40-65 | reads exactly the last 200 trades |
| Kelly.DynamicKelly.PortfolioKelly | backend/ml/dynamic_kelly.py:102-115 | the loop sums equity * weight * fraction and lists each symbol's part |
| Kelly.FractionInRange | backend/ml/dynamic_kelly.py:40-65 | the fraction lies in [0.01, 0.25] |
| Kelly.RawKellyIsEdge | backend/ml/dynamic_kelly.py:58-59 | the raw fraction is the win rate times the share of the winnings the losses left |
| Kelly.FractionIsHalfTheEdge | backend/ml/dynamic_kelly.py:58-65 | the fraction is half of that, clipped |
| Kelly.MoreThanLeastExactly | backend/ml/dynamic_kelly.py:40-65 | the fraction exceeds 0.01 if and only if there are enough trades of both kinds with sums to go by and the edge exceeds 2% |
| Kelly.MoreThanLeastNeedsProfit | backend/ml/dynamic_kelly.py:40-65 | with winnings that sum to a gain, only a net profit earns more than 0.01 |
| Kelly.ProfitNeededExactly | backend/ml/dynamic_kelly.py:40-65 | more than 0.01 without a net profit if and only if there is enough to go by, the winnings sum to a loss, there is no net profit and the edge exceeds 2% |
| Kelly.ProfitNeededExactlyBySums | backend/ml/dynamic_kelly.py:40-65 | with one trade in fifty won, the two sums decide |
| Kelly.MislabelledWinsPay | backend/ml/dynamic_kelly.py:44-65 | ten losing trades, half of them flagged as won, earn the greatest fraction |
| Kelly.PortfolioRiskBounds | backend/ml/dynamic_kelly.py:102-115 | the total risk is between 1% and 25% of equity per unit of weight |
| Kelly.PortfolioRiskIsWeighted | backend/ml/dynamic_kelly.py:102-115 | it is the equity times the fractions weighted as allocated |
| Allocation.DynamicAssetAllocation.ScoreAssets | backend/ml/dynamic_allocation.py:26-35 | the first loop, on a table that may hold other assets |
| Allocation.DynamicAssetAllocation.CalculateWeights | backend/ml/dynamic_allocation.py:24-51 | the three loops compute `NewWeights`, which is fair if the total score is positive |
| Allocation.DynamicAssetAllocation.GetPositionSizeMultiplier | backend/ml/dynamic_allocation.py:53-64 | the weight over the average weight, 1 where that is undefined |
| Allocation.WeightsAreFair | backend/ml/dynamic_allocation.py:37-51 | with a positive total score the weights sum to one, differ by a factor of at most 25, and follow the scores |
| Allocation.ScoreWeighs | backend/ml/dynamic_allocation.py:29-34 | what a point of each of the four measures adds to the score |
| Allocation.WeightsAreProportional | backend/ml/dynamic_allocation.py:24-51 | the new weights stand to each other as the parts of the total score, each put between 0.01 and 0.25 |
| Allocation.BetterScoreBetterWeight | backend/ml/dynamic_allocation.py:26-51 | a better score never ends with the smaller weight |
| Allocation.SumToOneExactly | backend/ml/dynamic_allocation.py:24-51 | the weights sum to one if and only if some asset scores above zero or the stale weights already did |
| Allocation.WeightBounds | backend/ml/dynamic_allocation.py:37-49 | with n assets each weight lies between 0.01/(0.01+0.25(n-1)) and 0.25/(0.25+0.01(n-1)) |
| Allocation.LimitsKeptExactly | backend/ml/dynamic_allocation.py:37-49 | the new weights keep the limits if and only if the clipped shares sum to one, or to more with none below 0.01 of the sum |
| Allocation.LimitsKeptExactlyWithoutStale | backend/ml/dynamic_allocation.py:37-49 | with no stale asset, if and only if the clipped shares sum to one |
| Allocation.WeightsStayNonNegative | backend/ml/dynamic_allocation.py:24-51 | weights that were not negative stay so, whatever the scores |
| Allocation.MostShareIsReached | backend/ml/dynamic_allocation.py:37-49 | the greatest of those bounds is reached for every number of assets |
| Allocation.LeastShareIsReached | backend/ml/dynamic_allocation.py:37-49 | and the least, for two or more |
| Allocation.FewAssetsExceedTheMost | backend/ml/dynamic_allocation.py:37-49 | with fewer than four assets some weight exceeds 0.25 |
| Allocation.MultipliersAverageOne | backend/ml/dynamic_allocation.py:53-64 | the multipliers of the known assets average exactly one |
| Allocation.MultiplierExactly | backend/ml/dynamic_allocation.py:53-64 | a multiplier times the average weight is the weight, or 0.05 for an unknown asset; one where there is no average |

## Left out

- Floating-point rounding, NaN and infinities: every number is a real; `round` is exact, half to even, on reals.
- Backtest.RunBacktest: does not model the Sharpe ratio, which is a square root over the equity curve and feeds nothing else.
- Backtest.ComputeAtrs: does not model candle fields that are missing and read as 0, nor the fetching and saving of data.
- Failover.FailoverManager.RegisterNode: does not model callbacks and the event log; metadata is text by key.
- Failover.FailoverManager.SelectBackupNode: does not model a registration during the unlocked scan, on which Python raises; the choice is one atomic step.
- The failover states "pending" and "recovery" are declared in the source and never assigned.
- ConnectionPool.MT5ConnectionPool.RunHealthCheck: one clock reading serves the whole check, and the description of each connection that it also returns is not modelled.
- Connection ids are the number in "mt5-<number>"; last-used times and the reconnect log are not kept.
- RateLimit.RateLimitMiddleware.Call: does not model how the client's address is parsed, nor two requests interleaved between pruning and appending.
- StateSync.StateSynchronizer.SyncState: does not model a synchroniser whose buffer can hold nothing, the time, node and hash added to a state, key expiry, or a state changed by its caller after it was buffered.
- StateSync.StateSynchronizer.ProcessBufferedSyncs: does not model a drain during which others write; attempts fail as a finite list says and succeed after it.
- StateSyncProofs.AgreeingDrain: does not speak of the histories, in which a failed push may repeat an entry.
- Ingestion.MarketDataIngestion.Flush: does not model a failing database write, and leaves open in which order different keys are written.
- Ingestion.SyncHistorical: returns its batches rather than adding them to the list of the object.
- Evolution.GeneticOptimizer.Assess: does not model the process pool, in which a failure or time-out scores -10; the fitness is a function of the genes.
- Evolution.GeneticOptimizer.Mutate: does not model the normal distribution of the noise; any noise may be drawn.
- Evolution.GeneticOptimizer.Optimize: does not model convergence metrics, elapsed time and metadata of the result.
- Discrete parameters, which the source declares and never rounds.
- Allocation.DynamicAssetAllocation.ScoreAssets: does not model performance fields that are missing and read as 0.
- The other resilience code (broker and internet failover, multi-node election, trading-state signatures, watchdogs) and all scoring ladders: the same patterns with weaker invariants, or single branches.
