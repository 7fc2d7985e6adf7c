# Verified models of the World Money engines

Dafny models of the stateful engines of a financial workspace, with proofs of what they promise.
`dafny verify dfyconfig.toml` checks everything.

| file | what it models |
| --- | --- |
| `NotesText.dfy`, `ManagedFileWriter.dfy` | string search and stripping; one `write` of the vault daemon's managed file writer, and repeated writes |
| `WriterProtocol.dfy` | any number of writer threads and the user on the same files, step by step |
| `LedgerProjector.dfy` | the transactional event projector, crashes, restarts |
| `NetworkLevels.dfy` | adjacency and breadth-first levels of the company network |
| `Backtester.dfy`, `Drawdown.dfy` | the one-position backtest loop and the one-pass drawdown |
| `MonteCarlo.dfy`, `Indicators.dfy` | shuffled trade paths; the Kalman, EMA and GARCH recurrences |
| `ProjectionReconciliation.dfy`, `FillReconciliation.dfy` | windowed reconciliation; broker/blotter and legacy/ledger comparison |
| `CircuitBreaker.dfy`, `PythonBridge.dfy`, `MarketPoller.dfy`, `PaperOrders.dfy`, `StreamBuffer.dfy` | asynchronous protocols as step machines, and the classes behind them |
| `GraphSearch.dfy` | the fuzzy matcher and the ranked result list |
| `RealFacts.dfy`, `Sequences.dfy`, `Wrappers.dfy` | shared arithmetic steps; sums and subsequences; option and result types |

Code that changes state is a class or a method with loops, proved against a specification function;
the lemmas are about those functions. Every protocol is a function on states, so that "every run"
is a quantifier over sequences of events.

Where the code is subtler than its comments, the code is followed:

- The writer promises to copy the user's section "unchanged, forever". It strips leading newlines, and reading in
  text mode turns carriage returns into newlines, so the promise holds for sections without carriage returns that begin
  with exactly one line break; a body that holds the sentinel makes the section grow on every write.
  A fresh file is rewritten once more before it is stable.
- `CashReleased` on an entity without a row is lost, `average_price` is the first fill's price, and events at or
  below the checkpoint are not skipped by the projector itself: a restart over the whole log is harmless only if what
  was applied nets to zero.
- `reconcileProjection` compares one window with the projection it is given: windows that all match the same
  projection say nothing about the log, unless it fits into one window or the balances are zero.
- Half-open admits every call, not one probe.
- After a failed write the bridge settles the call but leaves its table entry behind, and a reply whose result is
  the word "ready" never settles a call: its timeout does. When the fallback itself throws, as it does for a model type
  that is no string, the exception is swallowed with the reply or escapes from the timer, and the call never settles.
- `startPolling` sets its guard only after the first poll ends: every call before that starts another chain, so the
  rate holds per chain, and `stopPolling` during a poll does not end its chain.
- A prefix outranks every inner match only up to a length of 200 units: at 201 it ties with a match at position 1.
- The greedy loop walks code points but compares them with single UTF-16 units, so surrogate pairs never match there:
  queries of two units or more that hold a surrogate can be missed.

## Model

| member | source | states |
|---|---|---|
| `NotesText.Find` | obsidian_finance_daemon.py:695 | the least position of the sentinel, or -1 exactly when it does not occur |
| `NotesText.RStrip` | obsidian_finance_daemon.py:700 | a prefix that ends in ink, with only Python whitespace cut off |
| `NotesText.AppendedSeparatorIsFirst` | obsidian_finance_daemon.py:695-700 | after concatenation the appended sentinel is the first occurrence exactly when the text above holds none |
| `NotesText.ContainsSurvivesTranslation` | obsidian_finance_daemon.py:694-695 | the newline translation of a text-mode read neither creates nor hides a sentinel |
| `NotesText.TranslationMeaning` | obsidian_finance_daemon.py:694 | reading in text mode turns the first carriage return, alone or with a line feed behind it, into one line feed, and so on behind it |
| `ManagedFileWriter.VaultFormatIsValid` | obsidian_finance_daemon.py:651-698 | the daemon's own sentinel and default text meet what the lemmas assume |
| `ManagedFileWriter.BodyIsRegenerated` | obsidian_finance_daemon.py:694-707 | after a write the text above the first sentinel is the stripped new body and one empty line, below it a line break and the carried notes |
| `ManagedFileWriter.DefaultTextBelowSentinel` | obsidian_finance_daemon.py:692-707 | over an absent file or one without a sentinel, a sentinel-free write puts exactly a line break and the default text below the sentinel |
| `ManagedFileWriter.NotesPreservedIff` | obsidian_finance_daemon.py:685-708 | for every file and body, one write keeps the notes, as read and up to leading newlines, exactly when the body holds no sentinel |
| `ManagedFileWriter.SectionKeptIff` | obsidian_finance_daemon.py:662-708 | the promise on the raw text: every sentinel-free write keeps the section below the first sentinel, character by character, exactly when it has no carriage return and begins with exactly one line break |
| `ManagedFileWriter.SectionAfterWrite` | obsidian_finance_daemon.py:692-708 | what one sentinel-free write leaves below the sentinel, for every file and body |
| `ManagedFileWriter.SplitCommutesWithTranslation` | obsidian_finance_daemon.py:694-698 | splitting at the first sentinel and translating line ends commute |
| `ManagedFileWriter.RewriteMakesPortable` | obsidian_finance_daemon.py:692-708 | a section that a write has rewritten is kept from then on |
| `ManagedFileWriter.EmptyLineIsLost` | obsidian_finance_daemon.py:698 | a section that begins with an empty line loses it |
| `ManagedFileWriter.CarriageReturnIsLost` | obsidian_finance_daemon.py:694-698 | a section with a carriage return loses it |
| `ManagedFileWriter.CleanWrite` | obsidian_finance_daemon.py:685-708 | after a sentinel-free write the file has a sentinel and the extracted notes are the stripped old ones |
| `ManagedFileWriter.SecondWrite` | obsidian_finance_daemon.py:696-703 | the second identical write touches the disk exactly when the notes still began with a newline |
| `ManagedFileWriter.LeftAloneIff` | obsidian_finance_daemon.py:696-703 | a sentinel-free write returns False, leaving the file as it is, exactly when the file read in text mode has the stripped body and an empty line above its sentinel and exactly one line break at the start of its section |
| `ManagedFileWriter.RepeatedWritesSettle` | obsidian_finance_daemon.py:685-708 | over a file with a sentinel every write after the first returns False; otherwise exactly the first two return True |
| `ManagedFileWriter.SettlesIff` | obsidian_finance_daemon.py:685-708 | a series of identical writes ever reports "no change" exactly when the body has neither the sentinel nor a carriage return |
| `ManagedFileWriter.NoRewriteMeansFixpoint` | obsidian_finance_daemon.py:702-703 | returning False implies a sentinel in the file and a clean body |
| `ManagedFileWriter.SentinelBodyGrowsForever` | obsidian_finance_daemon.py:695-700 | with the sentinel in the body the user's section grows by more than the sentinel on every write |
| `ManagedFileWriter.Writer.LockFor` | obsidian_finance_daemon.py:679-683 | one lock per path, created once and never replaced |
| `ManagedFileWriter.Writer.ReadNotes` | obsidian_finance_daemon.py:692-698 | the decoded file and exactly the notes of the extraction |
| `ManagedFileWriter.Writer.Rewrite` | obsidian_finance_daemon.py:692-708 | the whole new disk and the return value are those of the sequential write |
| `ManagedFileWriter.Writer.Write` | obsidian_finance_daemon.py:685-708 | as Rewrite, under the path's lock, which is free again afterwards; other files are untouched |
| `WriterProtocol.InitialInv` | obsidian_finance_daemon.py:674-677 | the invariant holds before the first call, whatever the files |
| `WriterProtocol.StepInv` | obsidian_finance_daemon.py:679-708 | every step of every thread, every exception and every edit of an unlocked file keeps the invariant |
| `WriterProtocol.MutualExclusion` | obsidian_finance_daemon.py:691-708 | two threads are never both past the lock of one path |
| `WriterProtocol.OthersUndisturbed` | obsidian_finance_daemon.py:679-708 | what a thread has learnt under its lock stays true through any step of any other thread |
| `WriterProtocol.StepIsAtomicWrite` | obsidian_finance_daemon.py:685-708 | seen from outside, each daemon step is nothing or one whole sequential write, made by the rename |
| `WriterProtocol.SkipIsSequentialNoOp` | obsidian_finance_daemon.py:702-703 | a thread takes the "no change" exit exactly when the sequential write would return False |
| `WriterProtocol.NotesSurviveEveryRun` | obsidian_finance_daemon.py:674-708 | under every interleaving, if the bodies written to a file are sentinel-free and the user does not edit it, it keeps its notes |
| `WriterProtocol.SectionSurvivesEveryRun` | obsidian_finance_daemon.py:662-708 | under every interleaving such a section stays the same, character by character, if the bodies written to the file are sentinel-free and the user does not edit it |
| `WriterProtocol.RunIsSequential` | obsidian_finance_daemon.py:679-708 | linearisation: in every interleaving the file, and what every write returned, are those of the same writes and edits carried out one after the other, each when it completed |
| `WriterProtocol.OneOperationPerCall` | obsidian_finance_daemon.py:685-708 | a call completes nothing until its end, and then exactly one write, of its own body, with the value it returns |
| `WriterProtocol.NoPartialFile` | obsidian_finance_daemon.py:705-707 | at every moment of every run a managed file holds its first content, a user's text, or all of what one sequential write of a call on that path makes of the content just before |
| `WriterProtocol.SomeThreadCanStep` | obsidian_finance_daemon.py:679-691 | no deadlock: while a call is under way some thread can take a step that changes the state |
| `LedgerProjector.SortIsStableSort` | src/services/ledgerProjector.js:19 | ordered by sequence number, arrival order kept among equals |
| `LedgerProjector.ArrivalOrderIsIrrelevant` | src/services/ledgerProjector.js:18-20 | with distinct sequence numbers any arrival order gives the same views and results, crash or no crash |
| `LedgerProjector.RunLeavesAPrefix` | src/services/ledgerProjector.js:2-20 | whatever fails, the durable views are those of a prefix of the sorted events, at most one longer than reported (an unanswered commit) |
| `LedgerProjector.RunStopsAtFirstFailure` | src/services/ledgerProjector.js:2-20 | exact: a run reports the events before the first transaction whose event is refused or whose connection fails, succeeds only if there is none, and leaves their views, one event more only if that commit became durable unanswered |
| `LedgerProjector.RefusedIff` | src/services/ledgerProjector.js:9-15 | an event fails by itself exactly when it names no row, whatever the views hold |
| `LedgerProjector.CheckpointMarksThePrefix` | src/services/ledgerProjector.js:13-14 | the events above the committed checkpoint are exactly those not yet applied |
| `LedgerProjector.ExactlyOnceAcrossRestarts` | src/services/ledgerProjector.js:2-20 | after any number of crashing runs over the events above the checkpoint, each event has been applied at most once and in order; after a run that comes through, all of them |
| `LedgerProjector.ResumeEqualsUninterrupted` | src/services/ledgerProjector.js:2-20 | a crashed run resumed above its checkpoint ends where an uninterrupted run ends |
| `LedgerProjector.ReapplyIsNoOpIff` | src/services/ledgerProjector.js:2-14 | an event given to any views changes nothing exactly when the checkpoint is there, no amount moves and the row carries its number already |
| `LedgerProjector.ReplayOverPrefixIff` | src/services/ledgerProjector.js:2-20 | replaying a whole log over the views of a prefix gives the log's views exactly when the prefix nets to zero for every row on record |
| `LedgerProjector.RestartOverEverythingIff` | src/services/ledgerProjector.js:2-20 | a crashed run restarted over all events ends where an uninterrupted run ends exactly when the events at or below the checkpoint net to zero for every row on record |
| `LedgerProjector.StampsAreStable` | src/services/ledgerProjector.js:12 | the row stamps of a log are those of its last event on the row |
| `LedgerProjector.RestartCountsTwice` | src/services/ledgerProjector.js:9 | one reservation, applied and given again: it is reserved twice |
| `LedgerProjector.LateReplaySetsNumberBack` | src/services/ledgerProjector.js:12 | an old event given again after a later one sets last_event_seq back |
| `LedgerProjector.ViewsMeaning` | src/services/ledgerProjector.js:9-12 | row existence, reserved cash and position quantity as sums over the events, including the releases lost on an absent row |
| `LedgerProjector.ReservedIsNetIff` | src/services/ledgerProjector.js:9-10 | reserved cash is reservations minus releases exactly when the releases before the row existed sum to zero |
| `LedgerProjector.AveragePriceIsFirstPrice` | src/services/ledgerProjector.js:11 | average_price stays the price of the first fill |
| `LedgerProjector.AveragePriceIsAverageIff` | src/services/ledgerProjector.js:11 | for priced fills it is the average cost exactly when the fills, weighted by quantity, did not move away from the first price |
| `LedgerProjector.Client.ProjectNextEvent` | src/services/ledgerProjector.js:2-16 | one transaction under any fault, rollback included |
| `LedgerProjector.Client.ProjectEvents` | src/services/ledgerProjector.js:18-20 | the loop over the sorted events, its results and its stop at the first failure |
| `NetworkLevels.BuildAdjacency` | components/CompanyNetworkPanel.jsx:405-414 | each visible node's partners, once per link end, in link order |
| `NetworkLevels.PartnersAreLinked` | components/CompanyNetworkPanel.jsx:407-414 | a list names exactly the visible nodes linked in either direction |
| `NetworkLevels.ComputeLevels` | components/CompanyNetworkPanel.jsx:416-426 | terminates on every graph; the domain is exactly what walks from the centre reach and each level is the least number of hops |
| `NetworkLevels.ClosedLevelsAreDistances` | components/CompanyNetworkPanel.jsx:416-426 | a map closed under links with steps of at most one and realised by walks is the distance map |
| `Backtester.Run` | python_engine/engine/backtester.py:13-181 | the loop and the drawdown scan against the bar-by-bar book; fewer than 25 candles are refused |
| `Backtester.NoLookAhead` | python_engine/engine/backtester.py:27-146 | a run on a prefix of the candles gives a prefix of the full equity curve and trade list |
| `Backtester.TradesFollowSignals` | python_engine/engine/backtester.py:104-138 | the trade list described without the loop: each trade is the first buy signal after the last exit and the first sell signal after it, at the slipped prices |
| `Backtester.TradesAreDisjointIntervals` | python_engine/engine/backtester.py:104-138 | closed trades are numbered from 1, disjoint and in order, and hold fewer bars in all than were traded |
| `Backtester.OneEquityPointPerBar` | python_engine/engine/backtester.py:27-146 | one equity point for each bar from bar 20 on |
| `Backtester.BalanceIsCapitalPlusPnl` | src/services/backtesterEngine.js:243-277 | the balance is the capital plus the pnl of the closed trades, under any rounding of pnl and units |
| `Backtester.TradesAreSized` | python_engine/engine/backtester.py:105-116 | each trade is sized at 95% of the capital plus the pnl closed before it |
| `Backtester.TradeBars` | python_engine/engine/backtester.py:104-119 | each closed trade: a buy signal given flat and a sell signal given holding, at the closes of those bars slipped up and down |
| `Backtester.TradeSize` | python_engine/engine/backtester.py:107-108 | each closed trade: 95% of the capital plus the pnl before it, for as many units as that buys |
| `Backtester.TradePnl` | python_engine/engine/backtester.py:120-126 | each closed trade: the difference in price on its units, less the commission on both amounts |
| `Backtester.EquityCurve` | python_engine/engine/backtester.py:140-146 | every equity point is the capital, the pnl of the trades closed so far and the unrealised gain of the position held |
| `Backtester.LastEquityPoint` | python_engine/engine/backtester.py:140 | the same for the last point of a run on any number of candles |
| `Backtester.StaysSolvent` | python_engine/engine/backtester.py:104-140 | balance and every equity point stay positive for a commission of at most 1/19 |
| `Backtester.HighCommissionCanRuin` | python_engine/engine/backtester.py:29-126 | for any higher commission the Kalman preset loses more than everything on 25 positive candles: flat, a breakout, a crash |
| `Backtester.SolventIff` | python_engine/engine/backtester.py:27-140 | the Kalman preset survives every positive price path exactly when the commission is at most 1/19, which is enough for every strategy |
| `Backtester.DrawdownOfSolventRun` | python_engine/engine/backtester.py:173-181 | the reported drawdown is the largest fall between any two points of the run and lies in [0,1) |
| `Backtester.KalmanRule` | python_engine/engine/backtester.py:29-55 | the preset buys and sells exactly when the last close leaves a band of 0.4% around the mean of the twenty closes before it |
| `Drawdown.Scan` | python_engine/engine/backtester.py:173-181 | the result is an upper bound of the losses from the running peak, and attained |
| `Drawdown.MaxDrawdownIsUnique` | python_engine/engine/backtester.py:173-181 | that description of the scan admits one value only |
| `Drawdown.ScanIsWorstPair` | src/services/backtesterEngine.js:312-319 | for positive curves the one-pass result is the maximum over all earlier/later pairs |
| `MonteCarlo.WalkOne` | python_engine/engine/monte_carlo.py:33-43 | final equity and maximum drawdown of one shuffled path |
| `MonteCarlo.Run` | python_engine/engine/monte_carlo.py:17-61 | every shuffle ends at capital plus the sum of the pnls; the ruin count is all or none; no simulation is an index error |
| `MonteCarlo.SummaryMeaning` | python_engine/engine/monte_carlo.py:50-61 | median and 5th-percentile equity coincide, and 0 <= p50 <= p95 <= p99 <= CVaR <= all losses over the capital |
| `MonteCarlo.SummaryFigures` | python_engine/engine/monte_carlo.py:47-61 | each reported figure by the sorted drawdowns and equities: the entries at the whole parts of n times 0.50, 0.95, 0.99 and 0.05, and the mean of the tail from the 0.99 position on |
| `MonteCarlo.SortedIsUnique` | python_engine/engine/monte_carlo.py:47-48 | a list has one sorted arrangement |
| `MonteCarlo.EmptyMeansBaseline` | python_engine/engine/monte_carlo.py:14-18 | without trades fifteen fixed pnls are simulated, 2640 in all with losses of 1400 |
| `MonteCarlo.TotalIsOrderFree` | python_engine/engine/monte_carlo.py:29-38 | a shuffle changes neither the sum nor the losses |
| `MonteCarlo.NoOrderIsWorse` | python_engine/engine/monte_carlo.py:33-43 | no order of the trades draws down more than all losses over the capital |
| `MonteCarlo.LossesFirstIsWorst` | python_engine/engine/monte_carlo.py:33-43 | taking all losses first draws down exactly that much |
| `MonteCarlo.Rank` | python_engine/engine/monte_carlo.py:53-60 | int(n * share) is a valid index for n >= 1 |
| `Indicators.KalmanFilter` | python_engine/engine/indicators.py:60-75 | the filtered series against the recurrence |
| `Indicators.GainBounds` | python_engine/engine/indicators.py:69-73 | gain strictly between 0 and 1, variance positive and below the measurement noise after one step |
| `Indicators.StateStaysInRange` | python_engine/engine/indicators.py:67-74 | the state never leaves the range of the measurements seen |
| `Indicators.UncertaintyNeverGrowsIff` | python_engine/engine/indicators.py:69-73 | the variance never increases exactly when q (r - 1) <= 1, which r <= 1 implies |
| `Indicators.VarianceShrinks` | python_engine/engine/indicators.py:69-73 | under that condition variance and gain never increase |
| `Indicators.NoiselessFilterIsWeightedMean` | python_engine/engine/indicators.py:60-75 | without process noise the filter is the precision-weighted mean of the data, in closed form |
| `Indicators.Ema` | python_engine/engine/indicators.py:14-24 | the loop against the recurrence, with the empty and single-value cases |
| `Indicators.EmaStaysInRange` | python_engine/engine/indicators.py:20-24 | the average stays in the range of the series for a factor in [0,1] |
| `Indicators.DefaultEmaStaysInRange` | python_engine/engine/indicators.py:20-24 | so does the default factor for every period of at least one |
| `Indicators.EmaIsWeightedSum` | python_engine/engine/indicators.py:20-24 | the average is a weighted sum: (1-a)^(n-1) for the first value and a(1-a)^(n-1-k) for the one at k > 0 |
| `Indicators.EmaWeightsSumToOne` | python_engine/engine/indicators.py:20-24 | these weights add up to one |
| `Indicators.SmoothingFactor` | python_engine/engine/indicators.py:20 | a given factor is used unless zero; the default times period + 1 is two |
| `Indicators.GarchVariance` | python_engine/engine/indicators.py:77-83 | the conditional variance against the recurrence; fewer than five returns have none |
| `Indicators.GarchIsWeightedSum` | python_engine/engine/indicators.py:81-83 | the variance is beta^n times its start plus every return's own contribution times beta to the number of returns after it |
| `Indicators.StartIsMeanSquare` | python_engine/engine/indicators.py:81 | the start times the number of returns is the sum of their squares |
| `Indicators.GarchStaysInBand` | python_engine/engine/indicators.py:81-83 | the variance stays between bounds at or beyond its start and its settling levels |
| `Indicators.GarchForecastBounds` | python_engine/engine/indicators.py:77-83 | at least omega, at most the larger of the start (the mean square) and the settling level of any bound on the squared returns |
| `ProjectionReconciliation.ComputeLedger` | src/services/projectionReconciliation.js:11-20 | the balances map against the fold |
| `ProjectionReconciliation.LedgerMeaning` | src/services/projectionReconciliation.js:11-20 | an account has a balance exactly when mentioned, and it is the sum of its own events |
| `ProjectionReconciliation.EachEntryCounts` | src/services/projectionReconciliation.js:13-18 | one more entry changes exactly one balance, that of its account id or else its aggregate id, by its amount, or by nothing for one that is not finite |
| `ProjectionReconciliation.Reconcile` | src/services/projectionReconciliation.js:22-39 | unavailable inputs, the window, the differences (complete, each account once), state and next checkpoint |
| `ProjectionReconciliation.MatchedIffAgrees` | src/services/projectionReconciliation.js:27-35 | matched exactly when no mentioned account is absent and every balance agrees |
| `ProjectionReconciliation.DifferencesMeaning` | src/services/projectionReconciliation.js:26-34 | exactly the absent and the disagreeing accounts are reported, with the log's balance as expected and the projection's as actual |
| `ProjectionReconciliation.ReportIsPatch` | src/services/projectionReconciliation.js:26-34 | setting every reported account to its expected balance makes the projection agree with the log |
| `ProjectionReconciliation.WindowsCoverTheLog` | src/services/projectionReconciliation.js:24-36 | following the checkpoints visits every event exactly once, in order |
| `ProjectionReconciliation.WindowsAreBounded` | src/services/projectionReconciliation.js:24 | no window exceeds the caller's bound or 10,000 |
| `ProjectionReconciliation.WindowsAreFull` | src/services/projectionReconciliation.js:24-36 | every window but the last holds exactly the smaller of the two bounds |
| `ProjectionReconciliation.StuckIff` | src/services/projectionReconciliation.js:24-36 | a window makes no progress exactly when it may hold no event |
| `ProjectionReconciliation.WindowsPreserveBalances` | src/services/projectionReconciliation.js:11-36 | the windows' balances add up to the whole log's |
| `ProjectionReconciliation.MatchedWindowsCompose` | src/services/projectionReconciliation.js:22-36 | windows that all match compose to a whole-log match of the summed projections |
| `ProjectionReconciliation.SameProjectionComposesIff` | src/services/projectionReconciliation.js:22-36 | if every window matches one projection, the whole log matches it exactly when it fits into one window or all its balances are zero |
| `ProjectionReconciliation.SameProjectionCanMislead` | src/services/projectionReconciliation.js:22-36 | two equal entries, one per window: both windows match, the log does not |
| `FillReconciliation.Reconcile` | src/services/fillReconciliation.js:7-59 | the two passes, their discrepancies and the status |
| `FillReconciliation.ReportIsCompletePatch` | src/services/fillReconciliation.js:7-52 | applying the report to the local blotter gives exactly the broker map |
| `FillReconciliation.ReportIsReversiblePatch` | src/services/fillReconciliation.js:18-49 | read backwards, the report gives the local blotter from the broker map |
| `FillReconciliation.ReportMeaning` | src/services/fillReconciliation.js:18-49 | the kind names the side where a symbol is absent, whose quantity is zero; the other quantities are those of the maps |
| `FillReconciliation.CleanIff` | src/services/fillReconciliation.js:13-54 | clean exactly when the two maps are equal and the broker list does not contradict itself |
| `FillReconciliation.EachSymbolReportedOnce` | src/services/fillReconciliation.js:13-50 | without repeated symbols no symbol is reported twice |
| `FillReconciliation.LastBrokerEntryStands` | src/services/fillReconciliation.js:8-15 | the last entry of a symbol stands, and its units count unless they are zero |
| `FillReconciliation.LastLocalEntryStands` | src/services/fillReconciliation.js:8-15 | the last entry of a symbol stands |
| `FillReconciliation.CompareLegacy` | src/services/legacyParityAdapter.js:38-41 | the differences of two id-to-record maps, complete and each id once |
| `FillReconciliation.LegacyMatchedIff` | src/services/legacyParityAdapter.js:38-41 | matched exactly when the two maps are equal; exactly the differing ids are reported |
| `FillReconciliation.ParityMeaning` | src/services/legacyParityAdapter.js:38-40 | a missing record is reported under the side that has it, a change only for an id on both sides, and each of them exactly when it is so |
| `FillReconciliation.LastRecordStands` | src/services/legacyParityAdapter.js:38 | the last record of an id stands |
| `CircuitBreaker.CountsFailuresSinceSuccess` | lib/connectionPool.js:15-44 | in every overlapping run the counter is the number of failures since the latest success |
| `CircuitBreaker.ClosedIffBelowThreshold` | lib/connectionPool.js:7-44 | "closed means below the threshold" holds in all runs exactly for thresholds of at least 1 |
| `CircuitBreaker.NoAdmissionBeforeTimeout` | lib/connectionPool.js:15-44 | after a failure that leaves it open nothing is admitted before that failure plus the timeout unless a call in flight succeeds first |
| `CircuitBreaker.OpenKeepsCallsOut` | lib/connectionPool.js:15-44 | the invariant behind it: open waits for the deadline, half-open is only reached after it |
| `CircuitBreaker.RecoversAfterDeadline` | lib/connectionPool.js:15-36 | past the deadline a call is admitted and its success closes the breaker |
| `CircuitBreaker.AdmittedAfterLatestFailure` | lib/connectionPool.js:15-44 | in every run a call is admitted when no failure has happened or the latest is at least the timeout ago |
| `CircuitBreaker.OpenAdmitsIff` | lib/connectionPool.js:15-44 | in every run an open breaker admits a call exactly when the latest failure is at least the timeout ago |
| `CircuitBreaker.LatestFailureMeaning` | lib/connectionPool.js:38-44 | the latest failure is the one that no other follows |
| `CircuitBreaker.HalfOpenAdmitsAnyNumber` | lib/connectionPool.js:15-22 | half-open is not a single probe: for every threshold, once it is open and past the deadline, any number of calls get in flight |
| `CircuitBreaker.OpeningIsRun` | lib/connectionPool.js:15-44 | the events of that witness are a run: every failure is that of a call in flight |
| `CircuitBreaker.CrowdedHalfOpenIff` | lib/connectionPool.js:15-44 | two calls are in flight half-open exactly after a call started beside another one, half-open already or open past the deadline |
| `CircuitBreaker.CircuitBreaker.Enter` | lib/connectionPool.js:15-22 | the admission test and its transition |
| `CircuitBreaker.CircuitBreaker.OnSuccess` | lib/connectionPool.js:33-36 | the whole new state |
| `CircuitBreaker.CircuitBreaker.OnFailure` | lib/connectionPool.js:38-44 | the whole new state |
| `PythonBridge.StepInv` | src/services/pythonBridge.js:21-132 | every event keeps the table, the timers and the promises consistent |
| `PythonBridge.FallbackThrowsIff` | src/services/pythonBridge.js:134-177 | for every method and all parameters, exactly when the fallback throws |
| `PythonBridge.SettlesAtMostOnce` | src/services/pythonBridge.js:92-132 | what a call's promise resolved to never changes |
| `PythonBridge.OwnReplyOrOwnFallback` | src/services/pythonBridge.js:72-132 | a call settles with the reply carrying its own id, its own fallback or that fallback's exception; unsettled, it is in the table, timer armed, unless its fallback throws |
| `PythonBridge.FateOfRequest` | src/services/pythonBridge.js:79-132 | a request waits, timer armed, until the first reply with its id or its timeout, and that one event decides what its promise becomes |
| `PythonBridge.CallsAreInvocations` | src/services/pythonBridge.js:92-132 | the promises of a run are those of its invocations, in order, each with its own method and parameters |
| `PythonBridge.UnsettledWithoutTimerIff` | src/services/pythonBridge.js:97-113 | a request is left unsettled without a timer exactly when the first event that concerned it asked for a fallback and that fallback throws |
| `PythonBridge.NumericModelTypeStrands` | src/services/pythonBridge.js:176-177 | train_model with a number for a model type: after Python's error reply the request never settles |
| `PythonBridge.BridgeBecomesReady` | src/services/pythonBridge.js:21-67 | from the initial state the first call and the ping make the bridge ready |
| `PythonBridge.CallsFallBackAfterExit` | src/services/pythonBridge.js:50-58 | after the process exits or fails, until a start-up notice or the ping, no request is sent and every call settles at once with its own fallback |
| `PythonBridge.CallsFallBackAfterTerminate` | src/services/pythonBridge.js:239-247 | after terminate that holds for ever, whatever arrives |
| `PythonBridge.UnreachableMeansFallback` | src/services/pythonBridge.js:92-132 | the same over any run that starts with a flag down or without a process |
| `PythonBridge.EnabledBridgeSends` | src/services/pythonBridge.js:61-96 | with a process, either enabling event lets the next call through under the next id, timer armed |
| `PythonBridge.ReadyReplyIsIgnored` | src/services/pythonBridge.js:73-77 | a reply whose result is "ready" leaves its call waiting |
| `PythonBridge.LateReplyHasNoEffect` | src/services/pythonBridge.js:79-89 | a reply to a settled call changes no call, and nothing at all unless that call's write had failed |
| `PythonBridge.QuiescentBridge` | src/services/pythonBridge.js:92-129 | in every run, once no timer is armed, an unsettled call is one whose fallback threw, and exactly the unanswered entries of failed writes remain |
| `PythonBridge.FailedWriteSettlesAndLeaks` | src/services/pythonBridge.js:93-127 | from every ready bridge a failed write settles its call at once and leaves an entry without a timer |
| `PythonBridge.FailedWriteLeaksIff` | src/services/pythonBridge.js:79-127 | such an entry is in the table exactly until a reply with its id arrives |
| `PythonBridge.LeakedIff` | src/services/pythonBridge.js:79-127 | in every run the entries without a timer are exactly those of failed writes not answered since |
| `PythonBridge.PythonBridge.Invoke` | src/services/pythonBridge.js:92-132 | the whole new state of a call, both write outcomes and the direct fallback |
| `PythonBridge.PythonBridge.HandleMessage` | src/services/pythonBridge.js:72-90 | the whole new state after a message |
| `PythonBridge.PythonBridge.OnTimeout` | src/services/pythonBridge.js:97-101 | the whole new state after a timeout |
| `MarketPoller.DedupMeaning` | src/services/marketDataAdapter.js:151-158 | keys are distinct, symbols non-empty, and every given key is represented |
| `MarketPoller.FirstOfKeyIsKept` | src/services/marketDataAdapter.js:151-158 | the instrument kept for a key is the first one given |
| `MarketPoller.KeysTellApart` | src/services/marketDataAdapter.js:154 | keys are equal exactly for equal instruments, as long as no asset class holds a colon |
| `MarketPoller.ColonMakesKeysCollide` | src/services/marketDataAdapter.js:154 | with a colon two different instruments share a key |
| `MarketPoller.DedupKeepsOrder` | src/services/marketDataAdapter.js:151-158 | the watchlist is a subsequence of what was given |
| `MarketPoller.RoundRobin` | src/services/marketDataAdapter.js:167-172 | any n consecutive draws visit each of n instruments exactly once |
| `MarketPoller.IntervalCoversMinute` | src/services/marketDataAdapter.js:163-165 | m intervals span at least a minute, for every setting |
| `MarketPoller.IntervalIsLeast` | src/services/marketDataAdapter.js:163-165 | the interval is the least one for which the setting's calls span a minute; a setting below one counts as one |
| `MarketPoller.RequestsNeverOverlap` | src/services/marketDataAdapter.js:227-261 | in every run at most one request is in flight, however many chains there are |
| `MarketPoller.UnconnectedNeverAsks` | src/services/marketDataAdapter.js:227-261 | without a key or a fetch implementation no run sends a request or moves the cursor |
| `MarketPoller.FirstPollAsks` | src/services/marketDataAdapter.js:227-261 | a connected poller with a watchlist asks for the first instrument as soon as it is started |
| `MarketPoller.RateOfEachChain` | src/services/marketDataAdapter.js:227-268 | in every run, with any starts and stops, no half-open minute holds more requests of one chain than its share, which is within the allowed number |
| `MarketPoller.RateOfAllChains` | src/services/marketDataAdapter.js:227-268 | in every run no half-open minute holds more requests than one chain's share times the startPolling calls that found pollTimer null |
| `MarketPoller.BoundIsReached` | src/services/marketDataAdapter.js:252-261 | that bound is reached for every setting and every number of such calls |
| `MarketPoller.RateHoldsIff` | src/services/marketDataAdapter.js:163-268 | runs with at most n such calls all keep the allowed rate exactly when n shares are allowed |
| `MarketPoller.TwoChainsFitIff` | src/services/marketDataAdapter.js:163-165 | two shares are allowed exactly from 120,000 calls a minute on |
| `MarketPoller.RestartsBreakRate` | src/services/marketDataAdapter.js:252-267 | for every setting, stopping before each new start breaks the rate all the same |
| `MarketPoller.CleanRestartsKeepRateAndRotation` | src/services/marketDataAdapter.js:151-268 | any number of stops and restarts: if each such call finds the earlier chains cleared, the k-th request since the watchlist was set goes to the k-th instrument of the rotation; if it also comes an interval after the last request, the rate holds |
| `MarketPoller.OneStartKeepsRateAndRotation` | src/services/marketDataAdapter.js:151-268 | at most one such call keeps the rate and the rotation |
| `MarketPoller.StopEndsPollingIff` | src/services/marketDataAdapter.js:263-267 | with one chain alive, no request follows a stop exactly when that chain was not in the middle of a poll |
| `MarketPoller.PolygonMarketDataAdapter.SetWatchlist` | src/services/marketDataAdapter.js:151-161 | the deduplicated watchlist and a reset cursor |
| `MarketPoller.PolygonMarketDataAdapter.NextInstrument` | src/services/marketDataAdapter.js:167-172 | the instrument at the cursor, and the cursor advanced |
| `PaperOrders.ReservedIsSumOfAccepted` | src/services/paperOrderManager.js:4-17 | reserved is the sum of the accepted amounts, one per order, within the limit |
| `PaperOrders.NewBookKeepsLimit` | src/services/paperOrderManager.js:4-17 | from a new book: reserved is the sum of the accepted amounts and within the limit; a negative limit accepts nothing |
| `PaperOrders.NewBookCoversReservation` | src/services/paperOrderManager.js:4-17 | from a new book, in every run: the amounts in the orders it holds, each key's once, sum up to the reservation |
| `PaperOrders.BookCoversReservation` | src/services/paperOrderManager.js:7-17 | the same from any book of which it is true |
| `PaperOrders.OrdersComeFromCommands` | src/services/paperOrderManager.js:14-16 | every order on the book carries the key, the amount, the order id and the limit version of a command of the run |
| `PaperOrders.AcceptedIff` | src/services/paperOrderManager.js:8-13 | a command is accepted exactly when its key is known or its amount positive and within the limit; a refusal names the first rule broken |
| `PaperOrders.NothingAcceptedWhileEngaged` | src/services/paperOrderManager.js:5-8 | while the switch is on every submission is denied and audited and the book stands still |
| `PaperOrders.ReplaysCanBeDeleted` | src/services/paperOrderManager.js:7-17 | deleting all replays of accepted ids leaves the final book and all other replies unchanged |
| `PaperOrders.SameKeySameOrder` | src/services/paperOrderManager.js:10-16 | an accepted id gets the same order back for ever, except while the switch is on |
| `PaperOrders.RefusedAmountStaysRefused` | src/services/paperOrderManager.js:13 | an amount refused for the limit is never booked later |
| `PaperOrders.PaperOrderManager.Submit` | src/services/paperOrderManager.js:7-17 | the whole new state and the reply |
| `PaperOrders.PaperOrderManager.EngageKillSwitch` | src/services/paperOrderManager.js:5 | the whole new state |
| `PaperOrders.PaperOrderManager.ClearKillSwitch` | src/services/paperOrderManager.js:6 | the whole new state |
| `GraphSearch.GreedyScan` | components/GraphSearch.jsx:11-16 | the character loop with its early exit |
| `GraphSearch.FuzzyScore` | components/GraphSearch.jsx:3-20 | the best score over id and name |
| `GraphSearch.GreedyIsComplete` | components/GraphSearch.jsx:11-17 | the greedy loop uses up the query exactly when the query embeds in the candidate without its surrogate pairs |
| `GraphSearch.CandidatePositiveIff` | components/GraphSearch.jsx:7-18 | the four cases, with their length limits, in which a candidate scores above zero |
| `GraphSearch.ShortCandidatePositiveIff` | components/GraphSearch.jsx:7-18 | below 300 units and without surrogate pairs: exactly the subsequence matches |
| `GraphSearch.MatcherIsCompleteIff` | components/GraphSearch.jsx:7-18 | a query is found in every candidate that holds it as a subsequence exactly when it is a single unit or holds no surrogate |
| `GraphSearch.EmojiIsMissed` | components/GraphSearch.jsx:11-17 | an emoji and a letter are not found where another letter stands between them |
| `GraphSearch.ExactMatchesOutrank` | components/GraphSearch.jsx:7-9 | only exact matches score 1000, all others stay below 700 |
| `GraphSearch.ScoreClasses` | components/GraphSearch.jsx:7-18 | exact, prefix, inner and scattered matches, each with its own score by length or first position |
| `GraphSearch.ClassesAreOrderedIff` | components/GraphSearch.jsx:7-18 | a better kind of match outranks every worse one up to a length of 200 units and no further |
| `GraphSearch.ClassesAreOrdered` | components/GraphSearch.jsx:7-18 | up to that length, for all queries |
| `GraphSearch.OrderWithinClass` | components/GraphSearch.jsx:7-18 | within a kind the shorter candidate, or the earlier first occurrence, ranks higher, and exactly then |
| `GraphSearch.ScoreIsBest` | components/GraphSearch.jsx:4-19 | a node scores the better of its two candidates, and never below zero |
| `GraphSearch.TopTenMeaning` | components/GraphSearch.jsx:28-33 | positive scores only, best first with ties in input order, at most ten, nothing left out unless ten better ones are in |
| `GraphSearch.SearchIsComplete` | components/GraphSearch.jsx:26-34 | end to end: the hits are the matches, up to the limit, with exact matches in front |
| `StreamBuffer.PendingIsLatest` | streamWorker.js:12-21 | pending is the last min(count, 20000) messages accepted since the latest flush or disconnect |
| `StreamBuffer.NothingElseIsLost` | streamWorker.js:12-75 | every accepted message is pending, batched, overflowed or cleared, as often as it was accepted |
| `StreamBuffer.BatchesAreFlushes` | streamWorker.js:12-75 | the batches are, in order, the latest messages at every flush that found any, and only a disconnect clears messages, the latest ones at that moment |
| `StreamBuffer.DeliveredInOrder` | streamWorker.js:12-75 | batches then pending are an in-order subsequence of the accepted stream |
| `StreamBuffer.NothingDeliveredTwice` | streamWorker.js:12-75 | distinct messages in, distinct messages out |
| `StreamBuffer.OverflowTakesOldest` | streamWorker.js:41-42 | only a full buffer loses a message, and it is the oldest |
| `StreamBuffer.StreamWorker.OnMessage` | streamWorker.js:36-46 | the offset buffer refines the bounded queue |
| `StreamBuffer.StreamWorker.FlushBuffer` | streamWorker.js:12-21 | a flush posts the pending messages and empties the buffer |
| `StreamBuffer.StreamWorker.OnDisconnect` | streamWorker.js:64-75 | a disconnect clears the pending messages |

## Left out

- Backtester.Run: money and prices are exact reals, equity points are not rounded, and the strategy is any function of the closes up to the current bar and of whether a position is open; the signal formulas, Sharpe, Sortino and the other ratios, dates and the benchmark curve are not modelled. Prices are positive and slippage lies in [0,1), since the code divides by the slipped price.
- Backtester.BalanceIsCapitalPlusPnl: covers the JavaScript engine through its two roundings as parameters; its candle generator and its rounded equity points are not modelled, and solvency is stated for unrounded money only.
- MonteCarlo.Run: each shuffle is an input, any permutation; percentile positions use exact products instead of floats, and the starting capital is positive because the code divides by the peak.
- Indicators.KalmanFilter: states are not rounded to four places; the noises satisfy q >= 0 and r > 0.
- Indicators.GarchVariance: stops at the conditional variance; the square root, the floor and the rounding of the annualised figure are left out.
- ManagedFileWriter.NotesPreservedIff: compares the notes as the writer reads them, up to leading newlines; the raw text is the subject of SectionKeptIff.
- WriterProtocol.NotesSurviveEveryRun: the user edits a file only while no thread holds its lock, and no managed path ends in `.tmp`; parent directory creation and file times are left out.
- LedgerProjector.Client.ProjectEvents: alternative field names are resolved beforehand, amounts are exact reals without the columns' rounding, and `updated_at` is left out.
- ProjectionReconciliation.Reconcile: the order of the differences, the audit callback and the timestamp are left out; the accounts are taken in an arbitrary order.
- FillReconciliation.CompareLegacy: the order of the differences is left out; file reading, freshness and the source gap are not modelled.
- FillReconciliation.Reconcile: local units are numbers; severity and description texts are left out.
- CircuitBreaker.NoAdmissionBeforeTimeout: the clock never runs backwards and the timeout is not negative; the quota manager beside the breaker is left out.
- PythonBridge.PythonBridge.Invoke: the subprocess, JSON parsing and what the fallback computes are left out; a fallback is named by its method and parameters, whether the backtest inside it throws is an input, and the model goes on after an exception that leaves the timer callback.
- MarketPoller.OneStartKeepsRateAndRotation: freshness, caching, URLs and status events are left out; a poll that fails and one that succeeds both just end.
- PaperOrders.PaperOrderManager.Submit: random order ids are inputs; actor, entity and time of the audit entries are left out.
- GraphSearch.FuzzyScore: lower-casing and trimming happen before; the strings are UTF-16 code units.
- StreamBuffer.StreamWorker.OnMessage: sockets, reconnect timers and status messages are left out; messages may arrive at any time, also between connections.
- NetworkLevels.ComputeLevels: the filters that choose the visible nodes and the ring placement after the search (which turns the centre's level 0 into 1) are left out.
- React rendering, drawing, HTTP, WebSocket, Redis, PostgreSQL and Neo4j drivers: no algorithm to state a contract about.
- The daemon's data sources, renderers and graph export: data plumbing.
- Guardrails, entitlements, four-eyes approval, the live-trading gate, pnl and carry formulas: settled by reading one branch.
- walk_forward.py: window arithmetic over the backtester.
