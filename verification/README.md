# ES/SPX dashboard tick engine, modelled in Dafny

The dashboard's worker thread connects to a market-data feed. It picks the at-the-money (ATM)
strike of the same-day ES option chain. Then, every ten seconds, it samples its live quotes:
- the ES future: last, close, VWAP and implied volatility;
- the SPX index: last, open, and the daily bar's open;
- the ATM call and put: bid and ask.

From one sample it derives:
- the ES-SPX spread;
- the daily implied-volatility figures;
- the ATM straddle and the put/call ratio;
- the dealer volatility spread;
- the reference-price mode, with the base price and its label;
- a nine-level range ladder around that base.

A tick does four more things with state:
- It latches the SPX official open once, at or after 15:30.
- It re-picks the strike when ES has moved `RESELECT_POINTS` (10) from the price of the last pick.
- It freezes three once-only snapshots, at 10:00, 15:30 and 15:45. The afternoon ones come as an SPX record plus the same ladder converted to ES.
- It keeps the last 300 tick rows in memory.

This project models that engine, without its I/O, as seven modules:

- `Absence`: `nn`, the quote kinds it collapses, and Python truthiness (`None` and `0.0` are false, `a or b`).
- `Clock`: `time_ge` as a comparison of `(hour, minute)` tuples.
- `Ranges`: `calc_ranges`, `ORDER_KEYS`, `to_es`, the conversion of a whole ladder, and `ranges.get`.
- `Metrics`: everything one tick derives from its quotes (`Observe`), and the SPX-open latch.
- `Strikes`: nearest-strike choice (Python `min`, first minimum wins) and reselection with its hysteresis band.
- `Schedule`: the three gates, the records they freeze, and the snapshot rows they hand to the CSV sink.
- `Worker`: the class `Dashboard`. Its fields are the chain, `strike`, `anchor`, whether an option pair is subscribed, `connected`, `snapDone`, `spxOpenOfficial`, `snapshots`, `logRows`, and the live values and ladder. Its methods are the connect-time pick, the tick body split into its blocks, and the loop over ticks.

Prices are `real`, and absence is `Option<real>`. `SQRT_252` is a positive constant whose value the model does not use. Each tick reads the wall clock once, as an `(hour, minute)` input.

## Model

| member | source | states |
|---|---|---|
| Absence.Nn | run_dashboard_FINAL_FREEZE.py:85-93 | a quote is present exactly when it is a finite number, with that value; missing, unparsable and non-finite quotes become absent |
| Absence.Or | run_dashboard_FINAL_FREEZE.py:211 | Python `a or b`: the first operand when it is truthy, else the second; the result is truthy iff either operand is |
| Absence.OrZero | run_dashboard_FINAL_FREEZE.py:215 | `es_last or 0`: the price when truthy, else 0 |
| Clock.TimeGeIsMinuteOrder | run_dashboard_FINAL_FREEZE.py:107-110 | on well-formed readings, the `(hour, minute)` tuple comparison is the comparison of minutes since midnight |
| Clock.TimeGeMonotone | run_dashboard_FINAL_FREEZE.py:107-110 | once a threshold is reached, every later reading has reached it too |
| Clock.ThresholdsOrdered | run_dashboard_FINAL_FREEZE.py:43-45 | reaching 15:45 implies 15:30, and 15:30 implies 10:00 |
| Ranges.CalcRanges | run_dashboard_FINAL_FREEZE.py:112-128 | empty when the base or either fraction is absent; otherwise exactly the nine `ORDER_KEYS` labels in that order, with CENTER equal to the base |
| Ranges.LadderOrdering | run_dashboard_FINAL_FREEZE.py:116-127 | for a positive base and fractions: every UP level is above CENTER and every DOWN level below it; FIBO UP levels are beyond their R levels; FIBO DOWN levels lie between their R level and CENTER |
| Ranges.R1OutsideR2Iff | run_dashboard_FINAL_FREEZE.py:116-127 | R1 DOWN is below R2 DOWN, and R1 UP above R2 UP, exactly when the daily fraction exceeds the straddle fraction |
| Ranges.ToEs | run_dashboard_FINAL_FREEZE.py:130-134 | the converted level is present exactly when both the level and the spread are |
| Ranges.ToEsRoundTrip | run_dashboard_FINAL_FREEZE.py:130-134 | converting with a spread and back with its negation restores the level |
| Ranges.ToEsLadder | run_dashboard_FINAL_FREEZE.py:357 | the ES ladder has the SPX ladder's labels in the same order, and every level is `to_es` of the SPX level |
| Ranges.ToEsLadderRoundTrip | run_dashboard_FINAL_FREEZE.py:376 | converting a whole ladder and back restores it |
| Ranges.ToEsLadderKeepsOrder | run_dashboard_FINAL_FREEZE.py:357 | the conversion keeps the order between any two levels |
| Ranges.GetFirst | run_dashboard_FINAL_FREEZE.py:344 | `ranges.get(k)` returns the level of the first entry labelled `k` |
| Ranges.RowLevelsOfFull | run_dashboard_FINAL_FREEZE.py:344 | for a full ladder, the nine level columns of a snapshot row are its levels in ladder order |
| Ranges.RowLevelsOfEmpty | run_dashboard_FINAL_FREEZE.py:344 | for an empty ladder, every level column is absent |
| Metrics.Spread | run_dashboard_FINAL_FREEZE.py:246 | the spread is present exactly when ES and SPX are both truthy, and then ES = SPX + spread |
| Metrics.OpenForTick | run_dashboard_FINAL_FREEZE.py:249-260 | a latched open is kept; before 15:30 there is none; from 15:30 on, the live open is used, falling back to the daily bar's open only when the live one is absent |
| Metrics.Latch | run_dashboard_FINAL_FREEZE.py:261-262 | a stored open is never overwritten; a new one is stored only at or after 15:30, only if truthy, and always when those hold |
| Metrics.Fraction | run_dashboard_FINAL_FREEZE.py:269 | a fraction is present, and truthy, exactly when its percentage is truthy |
| Metrics.IvNormalisation | run_dashboard_FINAL_FREEZE.py:266-269 | a raw IV in (0, 1) is scaled by 100 before dividing by the square root of 252, and one of 1 or more is not; the daily fraction is the annual fraction over the square root of 252; zero gives absence |
| Metrics.IvAbsent | run_dashboard_FINAL_FREEZE.py:266-269 | a missing IV leaves the daily percentage and fraction absent |
| Metrics.StraddleOf | run_dashboard_FINAL_FREEZE.py:276-282 | each mid, the straddle bid, ask, mid and spread, and the put/call ratio are present exactly when both operands are truthy; spread = ask − bid; mid lies between bid and ask; ratio × call mid = put mid |
| Metrics.PcrGuarded | run_dashboard_FINAL_FREEZE.py:282 | an absent or zero call mid gives no ratio |
| Metrics.ModeOf | run_dashboard_FINAL_FREEZE.py:285-291 | AFTERNOON with base = open and label OPEN exactly when it is 15:30 or later, the open is neither absent nor 0, and a spread exists (a zero one counts); otherwise MORNING with base = VWAP and label VWAP |
| Metrics.IvStraddlePct | run_dashboard_FINAL_FREEZE.py:294 | present exactly when the straddle ask and the base are truthy, and then it is the ask as a percentage of the base |
| Metrics.R1Points | run_dashboard_FINAL_FREEZE.py:298 | the daily move is present exactly when the base and the daily fraction are truthy |
| Metrics.Dvs | run_dashboard_FINAL_FREEZE.py:299 | present exactly when the straddle mid and the daily move are truthy, and then it is the mid as a percentage of the move |
| Metrics.R1PointsTruthy | run_dashboard_FINAL_FREEZE.py:298-299 | the daily move is nonzero whenever the base and the daily fraction are, so the `!= 0` guard adds nothing |
| Metrics.OptionQuote | run_dashboard_FINAL_FREEZE.py:272-275 | with no option pair subscribed, every option quote is absent |
| Metrics.Observe | run_dashboard_FINAL_FREEZE.py:243-299 | the tick's open is the latched or fetched one; the mode and base follow the AFTERNOON rule above; the fractions are truthy exactly when their percentages are; a straddle fraction implies a truthy base |
| Metrics.LiveRanges | run_dashboard_FINAL_FREEZE.py:322 | the live ladder is non-empty exactly when the base is truthy and both fractions are present, and then it is full and centred on the base |
| Metrics.MorningScenario | run_dashboard_FINAL_FREEZE.py:243-322 | ES 5000, VWAP 4995, SPX 4990 and raw IV 0.15 in the morning give spread 10, annual IV 15, daily IV 15/√252, MORNING with base 4995, and, with straddle quotes, a full ladder centred on 4995 |
| Metrics.AfternoonSwitchScenario | run_dashboard_FINAL_FREEZE.py:285-291 | after 15:30, an absent or zero open, or an absent spread, keeps MORNING; an open together with a spread switches to AFTERNOON on the open |
| Metrics.AfternoonLatchesOpen | run_dashboard_FINAL_FREEZE.py:249-291 | a tick in AFTERNOON mode leaves a truthy official open latched, and every later tick reads a truthy open, so the open never sends a later tick back to MORNING |
| Strikes.NearestIndex | run_dashboard_FINAL_FREEZE.py:215 | `min(strikes, key=abs distance)`: a strike no farther than any other, and strictly nearer than every earlier one (first minimum wins) |
| Strikes.InitialSelection | run_dashboard_FINAL_FREEZE.py:215-216 | the first pick is a chain strike nearest to `es_last or 0`, strictly nearer than every strike before it in chain order (ties go to the earlier strike), with the anchor set to `es_last` |
| Strikes.Reselect | run_dashboard_FINAL_FREEZE.py:302-307 | the selection changes exactly when ES and the anchor are both truthy, at least 10 apart, and the nearest strike differs; strike and anchor then change together to the nearest strike and ES; otherwise neither changes |
| Strikes.TieGoesToFirstStrike | run_dashboard_FINAL_FREEZE.py:215 | on the chain 4000, 4010 with ES at 4005, the pick is 4000, the first of the two equally near strikes |
| Strikes.AfterTicksAppend | run_dashboard_FINAL_FREEZE.py:302-307 | the selection after one more tick is that tick's reselection from the selection the earlier ticks reached |
| Strikes.NoStartPricePicksLowest | run_dashboard_FINAL_FREEZE.py:211-216 | with no ES price on connecting, on a chain of positive strikes the pick is the lowest strike, and no run of ticks ever moves it |
| Strikes.AbsentAnchorIsSticky | run_dashboard_FINAL_FREEZE.py:302 | with an absent or zero anchor, no run of ticks ever reselects |
| Strikes.StaysOnChain | run_dashboard_FINAL_FREEZE.py:303-305 | after any run of ticks the strike is still a chain strike |
| Strikes.ReselectSettles | run_dashboard_FINAL_FREEZE.py:302-306 | right after a reselection, the same ES price does not reselect again |
| Strikes.ReselectScenario | run_dashboard_FINAL_FREEZE.py:302-307 | on the chain 4000..4200 with strike and anchor at 4050, 4059 keeps everything, and 4061 picks 4060 and records 4061 |
| Schedule.RecordFacts | run_dashboard_FINAL_FREEZE.py:338-379 | every record is a full ladder centred on its base. The 10:00 base is the live base, labelled VWAP. The SPX bases are the official open, labelled OPEN. The ES base is open + spread, labelled OPEN+SPR, and its ladder is the SPX ladder converted with the spread |
| Schedule.CaptureSlots | run_dashboard_FINAL_FREEZE.py:340-358 | a firing gate writes exactly its own slots, with its records, and leaves every other slot untouched |
| Schedule.CaptureKeepsCoherent | run_dashboard_FINAL_FREEZE.py:349-365 | capturing keeps every stored ladder full and centred, and every ES record the conversion of its SPX record |
| Schedule.CaptureMarksDone | run_dashboard_FINAL_FREEZE.py:337-346 | after a capture, the stored slots are exactly those of the done gates, the new gate included |
| Schedule.CaptureIfOnlyAdds | run_dashboard_FINAL_FREEZE.py:337-346 | one gate block adds its slots only when it fires, and never changes a stored record |
| Schedule.DoneAfterIff | run_dashboard_FINAL_FREEZE.py:336-384 | after a tick a gate is done exactly when it was done before or was ready on this tick |
| Schedule.CaptureDueOnlyAdds | run_dashboard_FINAL_FREEZE.py:336-384 | the tick's three gate blocks add exactly the slots of the gates that fire, with their records, and never touch a stored one |
| Schedule.GateRows | run_dashboard_FINAL_FREEZE.py:342-344 | a firing gate appends one row per slot, and a gate that does not fire appends none |
| Schedule.GateRowsCount | run_dashboard_FINAL_FREEZE.py:342-382 | a gate's rows carry each of its slot labels once when it fires, and no label otherwise |
| Schedule.WrittenRowsCount | run_dashboard_FINAL_FREEZE.py:336-384 | in one tick a slot gets exactly one row if its gate fires, and none otherwise |
| Schedule.CountAfterTick | run_dashboard_FINAL_FREEZE.py:336-384 | across ticks, starting from the done set the run began with (empty at line 175), each slot has exactly one row if its gate became done during the run, and none otherwise |
| Schedule.DoneGateIsSilent | run_dashboard_FINAL_FREEZE.py:337 | a gate that has fired writes nothing, however often it is polled |
| Schedule.AfternoonGateMeansAfternoonMode | run_dashboard_FINAL_FREEZE.py:349-350 | on a tick where a 15:30 or 15:45 gate is ready, the mode is AFTERNOON and the live base is the official open |
| Schedule.ReadyInOrder | run_dashboard_FINAL_FREEZE.py:337-369 | on a tick, a ready 15:45 gate implies a ready 15:30 gate, which implies a ready 10:00 gate |
| Schedule.TenOClockLabelIsFixed | run_dashboard_FINAL_FREEZE.py:340-342 | the 10:00 record is labelled VWAP even when it fires in AFTERNOON mode, whose base label is OPEN |
| Schedule.HeaderAsWrittenMislabels | run_dashboard_FINAL_FREEZE.py:151-155 | with the header as written, the column headed CENTER holds R1 UP, which differs from the centre, so the header does not match the rows |
| Schedule.HeaderMatchesRows | run_dashboard_FINAL_FREEZE.py:344 | with the header in `ORDER_KEYS` order, every level column holds the level of the label its header names |
| Worker.BoundedAppend | run_dashboard_FINAL_FREEZE.py:391-393 | after an append the log has at most 300 rows; it ends with the new row; before it come the newest old rows in order; nothing is dropped until the log is full |
| Worker.BoundedAgain | run_dashboard_FINAL_FREEZE.py:391-393 | trimming the log to 300 rows after every append keeps the same rows as trimming once at the end |
| Worker.LogStep | run_dashboard_FINAL_FREEZE.py:388-393 | the log after one more completed tick is the 300 newest of the start log followed by the rows of all completed ticks |
| Worker.OpenRunKeepsLatch | run_dashboard_FINAL_FREEZE.py:261-262 | once an SPX official open is latched, no run of ticks changes it |
| Worker.ObservedStep | run_dashboard_FINAL_FREEZE.py:243-262 | a tick that reads its quotes with the open latched by the ticks before it extends the run's derived values, and latches its own open on top |
| Worker.SelectionStep | run_dashboard_FINAL_FREEZE.py:302-307 | reselecting on one more tick's ES price gives the selection of the longer run |
| Worker.DoneRunIff | run_dashboard_FINAL_FREEZE.py:336-384 | after a run a gate is done exactly when it was done at the start or was ready on one of the completed ticks |
| Worker.DoneRunStep | run_dashboard_FINAL_FREEZE.py:336-384 | the done gates after one more completed tick are that tick's update of those the earlier ticks reached |
| Worker.StartPrice | run_dashboard_FINAL_FREEZE.py:211-214 | the connect-time ES price is the first read when present, otherwise a second read |
| Worker.Dashboard.constructor | run_dashboard_FINAL_FREEZE.py:174-176 | no gate done, no snapshot, no latched open, no strike or anchor, empty log, not connected |
| Worker.Dashboard.Connect | run_dashboard_FINAL_FREEZE.py:211-232 | an empty strike list fails the connection and leaves the chain, strike, anchor and subscription as they were; otherwise the strike is the initial pick, the anchor its ES price, and the option pair subscribed exactly when it qualified |
| Worker.Dashboard.CaptureGate | run_dashboard_FINAL_FREEZE.py:337-346 | one gate block: the rows, done set and snapshots are those of that gate firing or not |
| Worker.Dashboard.CaptureGates | run_dashboard_FINAL_FREEZE.py:336-384 | the three gate blocks in order: rows = the rows of the gates that fire, done set and snapshots advanced accordingly, invariant kept |
| Worker.Dashboard.Tick | run_dashboard_FINAL_FREEZE.py:239-393 | one tick: latch, reselection, and, unless a strike change finds no option pair subscribed (which ends the connection and changes nothing else), publication of the live values, gates and log row |
| Worker.Dashboard.Step | run_dashboard_FINAL_FREEZE.py:248-393 | the tick body on the derived values, with the same outcome as `Tick` |
| Worker.Dashboard.ReselectStrike | run_dashboard_FINAL_FREEZE.py:301-319 | strike and anchor follow `Reselect`; a change with no option pair subscribed ends the connection |
| Worker.Dashboard.Publish | run_dashboard_FINAL_FREEZE.py:321-393 | live values and ladder published, gates run, log row appended to the bounded log |
| Worker.Dashboard.AppendLog | run_dashboard_FINAL_FREEZE.py:391-393 | the log becomes the last 300 rows of the old log plus the new row, and ends with that row |
| Worker.SwappedStep | run_dashboard_FINAL_FREEZE.py:302-307 | one more tick leaves whether each earlier tick moved the strike as it was, and the new tick moves it exactly when its reselection from the run's selection changes the pick |
| Worker.TracedStep | run_dashboard_FINAL_FREEZE.py:236-319 | a connected run extended by one tick that reads its quotes with the open latched so far: the tick completes unless it moves the strike with no option pair subscribed, and then it ends the connection; every view stays tied to its tick's quotes |
| Worker.SnapsRunStep | run_dashboard_FINAL_FREEZE.py:336-384 | the snapshots after one more completed tick are that tick's gate blocks applied to those the earlier ticks stored |
| Worker.SnapsRunFirstReady | run_dashboard_FINAL_FREEZE.py:336-384 | over a run, a slot is stored exactly when its gate is done; a stored record is never changed; a slot stored during the run holds the record of the first completed tick on which its gate was ready |
| Worker.RunOutcome | run_dashboard_FINAL_FREEZE.py:336-384 | for the completed ticks of a run: a gate is done exactly when it was done at the start or was ready on one of them; earlier snapshots are kept; a new snapshot is the record of the first tick on which its gate was ready |
| Worker.RunAfterStep | run_dashboard_FINAL_FREEZE.py:248-393 | the fields after one more completed tick: the open latched on top, the tick's reselection, its live values and ladder, the log with its row appended, its gates applied |
| Worker.RunAfterStop | run_dashboard_FINAL_FREEZE.py:248-319 | a tick that ends the connection changes only the latched open and the strike and anchor of the fields the run had reached |
| Worker.Dashboard.RunTick | run_dashboard_FINAL_FREEZE.py:236-393 | one pass of the loop: the tick completes, and the connection lasts, exactly unless it moves the strike with no option pair subscribed; afterwards the latched open, strike and anchor, live values and ladder, log, done gates and snapshots are those of the run one tick longer, with the tick that ended the connection counted only for the open and the strike; each slot has one row exactly when its gate became done during the run |
| Worker.Dashboard.TickLoop | run_dashboard_FINAL_FREEZE.py:236-393 | the loop runs until the ticks run out or one ends the connection; the fields are those of the processed ticks' run, and the run's views are traced to their ticks |
| Worker.Dashboard.RunTicks | run_dashboard_FINAL_FREEZE.py:236-393 | the loop stops early exactly on a tick that moves the strike while no option pair is subscribed, so with a pair subscribed it never stops early; every processed tick reads its quotes with the open latched by the ticks before it; chain and subscription are unchanged; the latched open, and the strike and anchor, are those the processed ticks reach, the tick that ended the connection included; a latched open is kept; the live values and ladder are those of the last completed tick, or unchanged when none completed; the log is the 300 newest of the start log plus the completed ticks' rows; a gate is done exactly when it was done before or was ready on a completed tick; each slot gets exactly one snapshot row if its gate became done during the run and none otherwise; earlier snapshots are kept, and a slot stored during the run holds the record of the first completed tick on which its gate was ready |

## Left out

- Market-data plumbing is not modelled: connecting, contract and chain lookup, subscribing, cancelling, historical bars and sleeps (run_dashboard_FINAL_FREEZE.py:180-234, 254-256, 308-319). These are network calls. The quotes, the chain's strikes, whether the ATM pair qualified, and the daily bar's open are inputs instead. A failed bar request is a `Missing` bar open.
- After a reselection, the model keeps the option pair subscribed. It does not model whether the new pair qualifies on an exchange.
- The outer retry loop is not modelled: `except Exception`, the 30-second back-off and the reconnect (395-398). A tick that raises becomes `ok == false`, which ends the run, and `Connect` can be called again. Reconnect errors other than an empty chain are not modelled.
- CSV persistence is not modelled: creating the files and appending rows (139-165). Snapshot rows are returned as values instead. The timestamp and date columns are not modelled, and neither are the exchange and contract name strings.
- The threading and the process-wide `STATE` shared with the UI callback are not modelled. The class holds the worker's own state; readers and locking are out of scope.
- The UI, formatting and Dash layout are not modelled.
- Floating point is not modelled. `nn` sees four kinds of quote rather than IEEE values, prices are exact reals, and `SQRT_252` is a positive constant with no value.
- The source calls the clock inside every `time_ge`. The model reads it once per tick.
- The source never resets `snap_done`, `today` or `spx_open_official` for a new day, and neither does the model.
- The mode is recomputed on every tick, as the code does (285-291). After 15:30, a tick with no spread (ES or SPX last absent or zero) falls back to MORNING, even after earlier ticks were in AFTERNOON. The open cannot cause this, because an AFTERNOON tick has latched a truthy open that every later tick reads (`Metrics.AfternoonLatchesOpen`).
- These carry no contract of their own. They are specification functions and predicates, and the lemmas and methods above state what they mean:
  - `Metrics.EsPrice` (`nn(last) or nn(close)`, 211, 243), stated by `Worker.StartPrice` and `Metrics.Observe`;
  - `Metrics.IvAnnualPct` and `Metrics.IvDailyPct`, stated by `Metrics.IvNormalisation` and `Metrics.IvAbsent`;
  - `Clock.TimeGe`, stated by `Clock.TimeGeIsMinuteOrder`, `Clock.TimeGeMonotone` and `Clock.ThresholdsOrdered`;
  - `Ranges.Get` and `Ranges.RowLevels`, stated by `Ranges.GetFirst`, `Ranges.RowLevelsOfFull` and `Ranges.RowLevelsOfEmpty`;
  - `Strikes.Nearest`, `Strikes.MovedPastBand` and `Strikes.AfterTicks`, stated by `Strikes.NearestIndex`, `Strikes.Reselect`, `Strikes.StaysOnChain`, `Strikes.AbsentAnchorIsSticky` and `Strikes.AfterTicksAppend`;
  - `Schedule.InputsReady`, `Schedule.Ready` and `Schedule.Fires`, stated by `Schedule.ReadyInOrder`, `Schedule.DoneAfterIff`, `Schedule.DoneGateIsSilent` and `Schedule.AfternoonGateMeansAfternoonMode`;
  - `Schedule.Record`, `Schedule.Capture`, `Schedule.CaptureIf`, `Schedule.DoneIf`, `Schedule.CaptureDue`, `Schedule.DoneAfter`, `Schedule.WrittenRows` and `Schedule.RowOf`, stated by the `Schedule` lemmas above (`Schedule.CaptureIfOnlyAdds` for `CaptureIf`, `Schedule.DoneAfterIff` for `DoneIf`);
  - `Worker.LogRowOf`, `Worker.Bounded`, `Worker.LogRowsOf`, `Worker.EsPrices`, `Worker.OpenRun`, `Worker.DoneRun`, `Worker.SnapsRun`, `Worker.Observed`, `Worker.Swapped`, `Worker.Traced`, `Worker.RunAfter` and `Worker.Dashboard.Fields`, stated by `Worker.BoundedAppend`, `Worker.BoundedAgain`, `Worker.LogStep`, `Worker.OpenRunKeepsLatch`, `Worker.ObservedStep`, `Worker.DoneRunIff`, `Worker.SnapsRunFirstReady`, `Worker.SwappedStep`, `Worker.TracedStep`, `Worker.RunAfterStep`, `Worker.RunAfterStop` and `Worker.Dashboard.RunTicks`;
  - `Worker.InitialView` (the live values `STATE` starts with, 62-77), stated by `Worker.Dashboard.constructor`.
- src/es_trading_dashboard/core/connection.py, config.py, exceptions.py and the package `__init__` files are not part of this model. They are network plumbing, settings loading and re-exports.

## Findings

| source | as written | input that shows it | evidently intended | confidence | as-written member | corrected member |
|---|---|---|---|---|---|---|
| run_dashboard_FINAL_FREEZE.py:151-155 | the snapshot file's header names the nine level columns `R1_UP, R2_UP, CENTER, R2_DN, R1_DN, FIB_R1_UP, FIB_R2_UP, FIB_R2_DN, FIB_R1_DN`, while every row (344, 356, 363, 375, 382) writes the levels in `ORDER_KEYS` order, FIBO R1 UP first | any snapshot with a positive base and fractions, e.g. base 5000 with fractions 0.01 and 0.005: the column headed CENTER holds R1 UP (5050), not 5000 | the header lists the labels in `ORDER_KEYS` order, so each column holds the level it names | high (not executed) | Schedule.HeaderAsWrittenMislabels | Schedule.HeaderMatchesRows |
