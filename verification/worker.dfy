/**
 * The data-collection worker: its state across ticks and reconnects, the first
 * strike pick on connecting, the per-tick body (SPX-open latch, reselection,
 * publication of the live values, snapshot gates, bounded log), and the loop
 * that runs ticks while the connection lasts.
 */
module Worker {
  import opened Absence
  import opened Clock
  import opened Ranges
  import opened Metrics
  import opened Strikes
  import opened Schedule

  /** How many tick rows the in-memory log keeps. */
  const LogCapacity: nat := 300

  /** A tick row of the live log (timestamp aside), in column order. */
  datatype LogRow = LogRow(
    mode: Mode, esLast: Option<real>, esVwap: Option<real>, spxLast: Option<real>,
    spxOpen: Option<real>, spread: Option<real>,
    ivDailyPct: Option<real>, ivStraddlePct: Option<real>,
    strBid: Option<real>, strMid: Option<real>, strAsk: Option<real>, strSpread: Option<real>,
    dvs: Option<real>, pcr: Option<real>)

  function LogRowOf(v: TickView): LogRow {
    LogRow(v.mode, v.esLast, v.esVwap, v.spxLast, v.spxOpen, v.spread,
           v.ivDailyPct, v.ivStraddlePct,
           v.straddle.bid, v.straddle.mid, v.straddle.ask, v.straddle.spread,
           v.dvs, v.straddle.pcr)
  }

  /** The last `n` rows (all of them when there are fewer). */
  function Bounded(rows: seq<LogRow>, n: nat): seq<LogRow> {
    if |rows| > n then rows[|rows| - n..] else rows
  }

  /**
   * Appending a row to the bounded log keeps at most `n` rows, ends with the new
   * row, and keeps before it the newest rows of the old log in their order;
   * nothing is dropped until the log is full.
   */
  lemma BoundedAppend(rows: seq<LogRow>, row: LogRow, n: nat)
    requires n > 0
    ensures var r := Bounded(rows + [row], n);
      && |r| == (if |rows| + 1 > n then n else |rows| + 1)
      && r[|r| - 1] == row
      && r[..|r| - 1] == rows[|rows| + 1 - |r|..]
  {
    var all := rows + [row];
    var r := Bounded(all, n);
    assert r == all[|all| - |r|..];
    assert r[..|r| - 1] == all[|all| - |r|..|all| - 1];
    assert all[..|all| - 1] == rows;
  }

  /** Appending to a log that is already bounded keeps the same rows as bounding once. */
  lemma BoundedAgain(rows: seq<LogRow>, row: LogRow, n: nat)
    requires n > 0
    ensures Bounded(Bounded(rows, n) + [row], n) == Bounded(rows + [row], n)
  {
    if |rows| > n {
      var b := rows[|rows| - n..];
      assert (b + [row])[|b| + 1 - n..] == rows[|rows| + 1 - n..] + [row];
      assert (rows + [row])[|rows| + 1 - n..] == rows[|rows| + 1 - n..] + [row];
    }
  }

  /** The tick rows of a run of ticks, in order. */
  function LogRowsOf(vs: seq<TickView>): seq<LogRow> {
    seq(|vs|, i requires 0 <= i < |vs| => LogRowOf(vs[i]))
  }

  /** The ES prices a run of ticks saw, in order. */
  function EsPrices(vs: seq<TickView>): seq<Option<real>> {
    seq(|vs|, i requires 0 <= i < |vs| => vs[i].esLast)
  }

  /** The SPX official open latched after the ticks of a run, one per view, from `open0`. */
  function OpenRun(open0: Option<real>, ticks: seq<TickInput>, views: seq<TickView>): Option<real>
    requires |views| <= |ticks|
    decreases |views|
  {
    if views == [] then open0
    else
      var n := |views| - 1;
      Latch(OpenRun(open0, ticks, views[..n]), ticks[n].now, views[n].spxOpen)
  }

  /** Once an SPX official open is latched, no run of ticks changes it. */
  lemma {:induction false} OpenRunKeepsLatch(open0: Option<real>, ticks: seq<TickInput>, views: seq<TickView>)
    requires |views| <= |ticks| && open0.Some?
    ensures OpenRun(open0, ticks, views) == open0
    decreases |views|
  {
    if views != [] {
      OpenRunKeepsLatch(open0, ticks, views[..|views| - 1]);
    }
  }

  /**
   * The `k`th view of a run is what its tick derived from its own quotes and the
   * open latched by the ticks before it.
   */
  ghost predicate Observed(ticks: seq<TickInput>, views: seq<TickView>, open0: Option<real>, subscribed: bool, k: nat) {
    && k < |views| <= |ticks|
    && views[k] == Observe(ticks[k], OpenRun(open0, ticks, views[..k]), subscribed)
  }

  /** A tick that derives its values from the open latched so far extends the run's views. */
  lemma ObservedStep(ticks: seq<TickInput>, views: seq<TickView>, v: TickView, open0: Option<real>, subscribed: bool)
    requires |views| < |ticks|
    requires forall k :: 0 <= k < |views| ==> Observed(ticks, views, open0, subscribed, k)
    requires v == Observe(ticks[|views|], OpenRun(open0, ticks, views), subscribed)
    ensures forall k :: 0 <= k < |views| + 1 ==> Observed(ticks, views + [v], open0, subscribed, k)
    ensures OpenRun(open0, ticks, views + [v]) == Latch(OpenRun(open0, ticks, views), ticks[|views|].now, v.spxOpen)
  {
    var vs := views + [v];
    assert vs[..|views|] == views;
    forall k | 0 <= k < |views| + 1
      ensures Observed(ticks, vs, open0, subscribed, k)
    {
      if k < |views| {
        assert Observed(ticks, views, open0, subscribed, k);
        assert vs[..k] == views[..k];
      }
    }
  }

  /** A tick's reselection extends the run of reselections by its ES price. */
  lemma SelectionStep(chain: seq<real>, sel0: Selection, views: seq<TickView>, v: TickView)
    requires |chain| > 0
    ensures Reselect(chain, AfterTicks(chain, sel0, EsPrices(views)), v.esLast).0
            == AfterTicks(chain, sel0, EsPrices(views + [v]))
  {
    assert EsPrices(views + [v]) == EsPrices(views) + [v.esLast];
    AfterTicksAppend(chain, sel0, EsPrices(views), v.esLast);
  }

  /** The done gates after the completed ticks of a run, one per view, from `done0`. */
  function DoneRun(done0: set<Gate>, ticks: seq<TickInput>, views: seq<TickView>): set<Gate>
    requires |views| <= |ticks|
    decreases |views|
  {
    if views == [] then done0
    else
      var n := |views| - 1;
      DoneAfter(DoneRun(done0, ticks, views[..n]), ticks[n].now, views[n])
  }

  /**
   * After a run a gate is done exactly when it was done at the start or was ready
   * on one of the completed ticks.
   */
  lemma {:induction false} DoneRunIff(done0: set<Gate>, ticks: seq<TickInput>, views: seq<TickView>, g: Gate)
    requires |views| <= |ticks|
    ensures g in DoneRun(done0, ticks, views)
            <==> g in done0 || exists k :: 0 <= k < |views| && Ready(g, ticks[k].now, views[k])
    decreases |views|
  {
    if views != [] {
      var n := |views| - 1;
      var before := views[..n];
      DoneRunIff(done0, ticks, before, g);
      DoneAfterIff(DoneRun(done0, ticks, before), ticks[n].now, views[n], g);
      if exists k :: 0 <= k < |views| && Ready(g, ticks[k].now, views[k]) {
        var k :| 0 <= k < |views| && Ready(g, ticks[k].now, views[k]);
        if k < n {
          assert before[k] == views[k];
        }
      }
      if exists k :: 0 <= k < n && Ready(g, ticks[k].now, before[k]) {
        var k :| 0 <= k < n && Ready(g, ticks[k].now, before[k]);
        assert views[k] == before[k];
      }
    }
  }

  /** One more completed tick of a run. */
  lemma DoneRunStep(done0: set<Gate>, ticks: seq<TickInput>, views: seq<TickView>, v: TickView)
    requires |views| < |ticks|
    ensures DoneRun(done0, ticks, views + [v]) == DoneAfter(DoneRun(done0, ticks, views), ticks[|views|].now, v)
  {
    assert (views + [v])[..|views|] == views;
  }

  /** The stored snapshots after the completed ticks of a run, one per view, from `snaps0` and `done0`. */
  function SnapsRun(snaps0: map<Slot, Snapshot>, done0: set<Gate>, ticks: seq<TickInput>, views: seq<TickView>)
    : map<Slot, Snapshot>
    requires |views| <= |ticks|
    decreases |views|
  {
    if views == [] then snaps0
    else
      var n := |views| - 1;
      CaptureDue(SnapsRun(snaps0, done0, ticks, views[..n]), DoneRun(done0, ticks, views[..n]), ticks[n].now, views[n])
  }

  /** One more completed tick of a run: its gate blocks capture over the run's snapshots. */
  lemma SnapsRunStep(snaps0: map<Slot, Snapshot>, done0: set<Gate>, ticks: seq<TickInput>, views: seq<TickView>, v: TickView)
    requires |views| < |ticks|
    ensures SnapsRun(snaps0, done0, ticks, views + [v])
            == CaptureDue(SnapsRun(snaps0, done0, ticks, views), DoneRun(done0, ticks, views), ticks[|views|].now, v)
  {
    assert (views + [v])[..|views|] == views;
  }

  /**
   * Over a run the stored slots stay those of the done gates, and a slot stored
   * during the run holds the record of the first completed tick on which its
   * gate was ready; slots stored before the run are kept.
   */
  lemma {:induction false} SnapsRunFirstReady(snaps0: map<Slot, Snapshot>, done0: set<Gate>, ticks: seq<TickInput>,
                                              views: seq<TickView>, s: Slot)
    requires |views| <= |ticks|
    requires forall t :: t in snaps0 <==> GateOf(t) in done0
    ensures var snaps := SnapsRun(snaps0, done0, ticks, views);
      && (forall t :: t in snaps <==> GateOf(t) in DoneRun(done0, ticks, views))
      && (s in snaps0 ==> s in snaps && snaps[s] == snaps0[s])
      && (s in snaps && s !in snaps0 ==>
            exists k :: 0 <= k < |views| && Ready(GateOf(s), ticks[k].now, views[k])
                        && (forall j :: 0 <= j < k ==> !Ready(GateOf(s), ticks[j].now, views[j]))
                        && snaps[s] == Record(s, views[k]))
    decreases |views|
  {
    if views != [] {
      var n := |views| - 1;
      var pre := views[..n];
      var before, done := SnapsRun(snaps0, done0, ticks, pre), DoneRun(done0, ticks, pre);
      var now := ticks[n].now;
      SnapsRunFirstReady(snaps0, done0, ticks, pre, s);
      CaptureDueOnlyAdds(before, done, now, views[n]);
      forall t
        ensures t in SnapsRun(snaps0, done0, ticks, views) <==> GateOf(t) in DoneRun(done0, ticks, views)
      {
        DoneAfterIff(done, now, views[n], GateOf(t));
      }
      var snaps := SnapsRun(snaps0, done0, ticks, views);
      if s in snaps && s !in snaps0 {
        if s in before {
          var k :| 0 <= k < n && Ready(GateOf(s), ticks[k].now, pre[k])
                   && (forall j :: 0 <= j < k ==> !Ready(GateOf(s), ticks[j].now, pre[j]))
                   && before[s] == Record(s, pre[k]);
          assert views[k] == pre[k];
          assert forall j :: 0 <= j < k ==> views[j] == pre[j];
        } else {
          forall j | 0 <= j < n
            ensures !Ready(GateOf(s), ticks[j].now, views[j])
          {
            DoneRunIff(done0, ticks, pre, GateOf(s));
            assert pre[j] == views[j];
          }
        }
      }
    }
  }

  /**
   * Whether the `k`th tick of a run moved the strike: its reselection, from the
   * selection the ticks before it reached, changed the pick.
   */
  ghost predicate Swapped(chain: seq<real>, sel0: Selection, views: seq<TickView>, k: nat)
    requires |chain| > 0
  {
    k < |views| && Reselect(chain, AfterTicks(chain, sel0, EsPrices(views[..k])), views[k].esLast).1
  }

  /** One more tick of a run: the earlier ticks keep their outcome, and the new one reselects from the run's selection. */
  lemma SwappedStep(chain: seq<real>, sel0: Selection, views: seq<TickView>, v: TickView)
    requires |chain| > 0
    ensures forall k :: 0 <= k < |views| ==> Swapped(chain, sel0, views + [v], k) == Swapped(chain, sel0, views, k)
    ensures Swapped(chain, sel0, views + [v], |views|)
            == Reselect(chain, AfterTicks(chain, sel0, EsPrices(views)), v.esLast).1
  {
    var vs := views + [v];
    assert vs[..|views|] == views;
    forall k | 0 <= k < |views|
      ensures Swapped(chain, sel0, vs, k) == Swapped(chain, sel0, views, k)
    {
      assert vs[..k] == views[..k];
    }
  }

  /**
   * What a run of ticks from the selection `sel0` and the open `open0` shows
   * about its views: `count` ticks completed and, once the connection ended,
   * one more was processed; each view was derived from its tick's quotes and the
   * open latched before it; a completed tick moved the strike only with a pair
   * subscribed; and the tick that ended the connection moved it with none.
   */
  ghost predicate Traced(chain: seq<real>, ticks: seq<TickInput>, sel0: Selection, open0: Option<real>,
                         subscribed: bool, connected: bool, count: nat, views: seq<TickView>)
    requires |chain| > 0
  {
    && |views| == (if connected then count else count + 1) && |views| <= |ticks|
    && (!connected ==> !subscribed && Swapped(chain, sel0, views, count))
    && (forall k :: 0 <= k < count ==> subscribed || !Swapped(chain, sel0, views, k))
    && (forall k :: 0 <= k < |views| ==> Observed(ticks, views, open0, subscribed, k))
  }

  /**
   * One more tick of a connected run: it completes unless it moves the strike
   * with no pair subscribed, in which case it ends the connection.
   */
  lemma TracedStep(chain: seq<real>, ticks: seq<TickInput>, sel0: Selection, open0: Option<real>,
                   subscribed: bool, count: nat, views: seq<TickView>, v: TickView, ok: bool)
    requires |chain| > 0 && count < |ticks|
    requires Traced(chain, ticks, sel0, open0, subscribed, true, count, views)
    requires v == Observe(ticks[count], OpenRun(open0, ticks, views), subscribed)
    requires ok <==> !(Reselect(chain, AfterTicks(chain, sel0, EsPrices(views)), v.esLast).1 && !subscribed)
    ensures Traced(chain, ticks, sel0, open0, subscribed, ok, if ok then count + 1 else count, views + [v])
    ensures OpenRun(open0, ticks, views + [v]) == Latch(OpenRun(open0, ticks, views), ticks[count].now, v.spxOpen)
  {
    ObservedStep(ticks, views, v, open0, subscribed);
    SwappedStep(chain, sel0, views, v);
  }

  /**
   * What the completed ticks of a run leave behind: a gate is done exactly when
   * it was done at the start or was ready on one of them; stored snapshots are
   * kept; a slot stored during the run holds the record of the first of them on
   * which its gate was ready.
   */
  lemma RunOutcome(snaps0: map<Slot, Snapshot>, done0: set<Gate>, ticks: seq<TickInput>, views: seq<TickView>, count: nat)
    requires count <= |views| <= |ticks|
    requires forall t :: t in snaps0 <==> GateOf(t) in done0
    ensures forall g :: g in DoneRun(done0, ticks, views[..count])
                        <==> g in done0 || exists k :: 0 <= k < count && Ready(g, ticks[k].now, views[k])
    ensures var snaps := SnapsRun(snaps0, done0, ticks, views[..count]);
      && (forall s :: s in snaps0 ==> s in snaps && snaps[s] == snaps0[s])
      && (forall s :: s in snaps && s !in snaps0 ==>
            exists k :: 0 <= k < count && Ready(GateOf(s), ticks[k].now, views[k])
                        && (forall j :: 0 <= j < k ==> !Ready(GateOf(s), ticks[j].now, views[j]))
                        && snaps[s] == Record(s, views[k]))
  {
    var done := views[..count];
    assert forall k :: 0 <= k < count ==> done[k] == views[k];
    forall g
      ensures g in DoneRun(done0, ticks, done) <==> g in done0 || exists k :: 0 <= k < count && Ready(g, ticks[k].now, views[k])
    {
      DoneRunIff(done0, ticks, done, g);
    }
    forall s
      ensures var snaps := SnapsRun(snaps0, done0, ticks, done);
        && (s in snaps0 ==> s in snaps && snaps[s] == snaps0[s])
        && (s in snaps && s !in snaps0 ==>
              exists k :: 0 <= k < count && Ready(GateOf(s), ticks[k].now, views[k])
                          && (forall j :: 0 <= j < k ==> !Ready(GateOf(s), ticks[j].now, views[j]))
                          && snaps[s] == Record(s, views[k]))
    {
      SnapsRunFirstReady(snaps0, done0, ticks, done, s);
    }
  }

  /** One more completed tick of a run: its row joins the log. */
  lemma LogStep(log0: seq<LogRow>, views: seq<TickView>, v: TickView)
    ensures Bounded(Bounded(log0 + LogRowsOf(views), LogCapacity) + [LogRowOf(v)], LogCapacity)
            == Bounded(log0 + LogRowsOf(views + [v]), LogCapacity)
  {
    BoundedAgain(log0 + LogRowsOf(views), LogRowOf(v), LogCapacity);
    assert LogRowsOf(views + [v]) == LogRowsOf(views) + [LogRowOf(v)];
    assert log0 + LogRowsOf(views + [v]) == log0 + LogRowsOf(views) + [LogRowOf(v)];
  }

  /** The part of the worker's state a run of ticks changes, besides the connection. */
  datatype RunFields = RunFields(
    open: Option<real>, sel: Selection, live: TickView, panels: Ladder,
    log: seq<LogRow>, done: set<Gate>, snaps: map<Slot, Snapshot>)

  /**
   * The state after a run from `start`: the latched open and the selection
   * follow every processed tick in `views`; the live values, the log, the done
   * gates and the snapshots follow the first `count`, the completed ones.
   */
  function RunAfter(chain: seq<real>, ticks: seq<TickInput>, views: seq<TickView>, count: nat, start: RunFields)
    : RunFields
    requires |chain| > 0 && count <= |views| <= |ticks|
  {
    var completed := views[..count];
    RunFields(
      OpenRun(start.open, ticks, views),
      AfterTicks(chain, start.sel, EsPrices(views)),
      if count == 0 then start.live else views[count - 1],
      if count == 0 then start.panels else LiveRanges(views[count - 1]),
      Bounded(start.log + LogRowsOf(completed), LogCapacity),
      DoneRun(start.done, ticks, completed),
      SnapsRun(start.snaps, start.done, ticks, completed))
  }

  /** A tick that completes extends every part of the run by one view. */
  lemma RunAfterStep(chain: seq<real>, ticks: seq<TickInput>, views: seq<TickView>, v: TickView, start: RunFields)
    requires |chain| > 0 && |views| < |ticks|
    ensures var r, n := RunAfter(chain, ticks, views, |views|, start), ticks[|views|].now;
      RunAfter(chain, ticks, views + [v], |views| + 1, start)
      == RunFields(Latch(r.open, n, v.spxOpen), Reselect(chain, r.sel, v.esLast).0, v, LiveRanges(v),
                   Bounded(r.log + [LogRowOf(v)], LogCapacity), DoneAfter(r.done, n, v),
                   CaptureDue(r.snaps, r.done, n, v))
  {
    var vs := views + [v];
    assert vs[..|views|] == views && vs[..|views| + 1] == vs && views[..|views|] == views;
    assert OpenRun(start.open, ticks, vs) == Latch(OpenRun(start.open, ticks, views), ticks[|views|].now, v.spxOpen);
    SelectionStep(chain, start.sel, views, v);
    LogStep(start.log, views, v);
    DoneRunStep(start.done, ticks, views, v);
    SnapsRunStep(start.snaps, start.done, ticks, views, v);
  }

  /** A tick that ends the connection moves only the latched open and the selection. */
  lemma RunAfterStop(chain: seq<real>, ticks: seq<TickInput>, views: seq<TickView>, v: TickView, start: RunFields)
    requires |chain| > 0 && |views| < |ticks|
    ensures var r := RunAfter(chain, ticks, views, |views|, start);
      RunAfter(chain, ticks, views + [v], |views|, start)
      == r.(open := Latch(r.open, ticks[|views|].now, v.spxOpen), sel := Reselect(chain, r.sel, v.esLast).0)
  {
    var vs := views + [v];
    assert vs[..|views|] == views && views[..|views|] == views;
    SelectionStep(chain, start.sel, views, v);
  }

  /** The values of `STATE` before the first tick. */
  function InitialView(): TickView {
    TickView(None, None, None, None, None, None, None,
             Straddle(None, None, None, None, None, None, None),
             MorningEsVwap, None, Vwap, None, None, None)
  }

  /** The ES price read on connecting: a second read when the first is absent. */
  function StartPrice(last: Quote, close: Quote, lastAgain: Quote, closeAgain: Quote): (p: Option<real>)
    ensures EsPrice(last, close).Some? ==> p == EsPrice(last, close)
    ensures EsPrice(last, close).None? ==> p == EsPrice(lastAgain, closeAgain)
  {
    var p := EsPrice(last, close);
    if p.None? then EsPrice(lastAgain, closeAgain) else p
  }

  class Dashboard {
    // Per connection: the option chain's strikes, the ATM pick, and whether
    // an option pair is subscribed (`tc`/`tp` not `None`).
    var chain: seq<real>
    var strike: Option<real>
    var anchor: Option<real>
    var subscribed: bool
    var connected: bool
    // Kept for the life of the process.
    var snapDone: set<Gate>
    var spxOpenOfficial: Option<real>
    var snapshots: map<Slot, Snapshot>
    var logRows: seq<LogRow>
    // The live values published by the last completed tick.
    var live: TickView
    var livePanels: Ladder

    ghost predicate Valid()
      reads this
    {
      && (forall s :: s in snapshots <==> GateOf(s) in snapDone)
      && Coherent(snapshots)
      && (G1545 in snapDone ==> G1530 in snapDone)
      && (G1530 in snapDone ==> G1000 in snapDone)
      && (spxOpenOfficial.None? || Truthy(spxOpenOfficial))
      && |logRows| <= LogCapacity
      && (connected ==> strike.Some? && |chain| > 0 && strike.value in chain)
    }

    /** The fields a run of ticks changes, besides the connection. */
    ghost function Fields(): RunFields
      reads this
      requires strike.Some?
    {
      RunFields(spxOpenOfficial, Selection(strike.value, anchor), live, livePanels, logRows, snapDone, snapshots)
    }

    constructor ()
      ensures Valid() && !connected
      ensures strike.None? && anchor.None?
      ensures snapDone == {} && snapshots == map[] && spxOpenOfficial.None? && logRows == []
      ensures live == InitialView() && livePanels == []
    {
      chain := [];
      strike, anchor := None, None;
      subscribed, connected := false, false;
      snapDone := {};
      spxOpenOfficial := None;
      snapshots := map[];
      logRows := [];
      live := InitialView();
      livePanels := [];
    }

    /**
     * Connecting: with a non-empty strike list, pick the strike nearest the ES
     * price and record that price as the anchor; an empty list fails the
     * connection (`min` of an empty sequence raises). `qualified` says whether
     * the ATM call and put qualified on an exchange.
     */
    method Connect(strikes: seq<real>, last: Quote, close: Quote, lastAgain: Quote, closeAgain: Quote,
                   qualified: bool) returns (ok: bool)
      requires Valid()
      modifies this`chain, this`strike, this`anchor, this`subscribed, this`connected
      ensures Valid()
      ensures ok <==> |strikes| > 0
      ensures connected == ok
      ensures ok ==>
        && chain == strikes && subscribed == qualified
        && var sel := InitialSelection(strikes, StartPrice(last, close, lastAgain, closeAgain));
           strike == Some(sel.strike) && anchor == sel.anchor
      ensures !ok ==> chain == old(chain) && strike == old(strike) && anchor == old(anchor)
                      && subscribed == old(subscribed)
    {
      if |strikes| == 0 {
        connected := false;
        return false;
      }
      connected := true;
      chain := strikes;
      var es := StartPrice(last, close, lastAgain, closeAgain);
      var sel := InitialSelection(strikes, es);
      strike, anchor := Some(sel.strike), sel.anchor;
      subscribed := qualified;
      ok := true;
    }

    /** One gate's block of the tick body: capture its records once, when ready. */
    method CaptureGate(g: Gate, now: Time, v: TickView) returns (rows: seq<SnapRow>)
      requires Valid()
      requires g == G1545 && Ready(g, now, v) ==> G1530 in snapDone
      requires g == G1530 && Ready(g, now, v) ==> G1000 in snapDone
      modifies this`snapDone, this`snapshots
      ensures Valid()
      ensures rows == GateRows(g, old(snapDone), now, v)
      ensures snapDone == DoneIf(old(snapDone), g, now, v)
      ensures snapshots == CaptureIf(old(snapshots), old(snapDone), g, now, v)
    {
      rows := [];
      if TimeGe(now, Threshold(g)) && g !in snapDone {
        if InputsReady(g, v) {
          CaptureMarksDone(snapshots, snapDone, g, v);
          snapshots := Capture(snapshots, g, v);
          rows := GateRows(g, snapDone, now, v);
          snapDone := snapDone + {g};
        }
      }
    }

    /** The three gate blocks of the tick body, in source order. */
    method CaptureGates(now: Time, v: TickView) returns (written: seq<SnapRow>)
      requires Valid()
      requires Ready(G1545, now, v) ==> Ready(G1530, now, v)
      requires Ready(G1530, now, v) ==> Ready(G1000, now, v)
      modifies this`snapDone, this`snapshots
      ensures Valid()
      ensures written == WrittenRows(old(snapDone), now, v)
      ensures snapDone == DoneAfter(old(snapDone), now, v)
      ensures snapshots == CaptureDue(old(snapshots), old(snapDone), now, v)
    {
      var rows1000 := CaptureGate(G1000, now, v);
      var rows1530 := CaptureGate(G1530, now, v);
      var rows1545 := CaptureGate(G1545, now, v);
      written := rows1000 + rows1530 + rows1545;
    }

    /**
     * One tick of the worker loop. The SPX official open is latched; the strike
     * is reselected when ES has left the band (with no option pair subscribed the
     * swap fails and the tick ends the connection, `ok` false); otherwise the live
     * values are published, the due gates capture their snapshots (`written` are
     * the snapshot rows) and the tick row is appended to the bounded log.
     */
    method Tick(inp: TickInput) returns (ok: bool, changed: bool, written: seq<SnapRow>)
      requires Valid() && connected
      modifies this`spxOpenOfficial, this`strike, this`anchor, this`connected
      modifies this`live, this`livePanels, this`snapDone, this`snapshots, this`logRows
      ensures Valid()
      ensures spxOpenOfficial
                == Latch(old(spxOpenOfficial), inp.now, Observe(inp, old(spxOpenOfficial), old(subscribed)).spxOpen)
      ensures var r := Reselect(old(chain), Selection(old(strike).value, old(anchor)),
                                Observe(inp, old(spxOpenOfficial), old(subscribed)).esLast);
        && changed == r.1
        && strike == Some(r.0.strike) && anchor == r.0.anchor
      ensures ok == !(changed && !old(subscribed))
      ensures connected == ok
      ensures var v := Observe(inp, old(spxOpenOfficial), old(subscribed));
        ok ==>
          && live == v && livePanels == LiveRanges(v)
          && written == WrittenRows(old(snapDone), inp.now, v)
          && snapDone == DoneAfter(old(snapDone), inp.now, v)
          && snapshots == CaptureDue(old(snapshots), old(snapDone), inp.now, v)
          && logRows == Bounded(old(logRows) + [LogRowOf(v)], LogCapacity)
      ensures !ok ==>
        && live == old(live) && livePanels == old(livePanels) && written == []
        && snapDone == old(snapDone) && snapshots == old(snapshots) && logRows == old(logRows)
    {
      var v := Observe(inp, spxOpenOfficial, subscribed);
      ReadyInOrder(inp, spxOpenOfficial, subscribed);
      ok, changed, written := Step(inp.now, v);
    }

    /**
     * The tick body once the live values `v` are read: latch the SPX open,
     * reselect the strike (ending the connection when there is no option pair
     * to swap), then publish. Its contract is `Tick`'s with the derived values
     * `v` in place of `Observe(inp, ...)`: splitting the tick in two keeps the
     * derivation of `v` out of the proof of the state change, and `Tick` then
     * only has to show that the gates become ready in order.
     */
    method Step(now: Time, v: TickView) returns (ok: bool, changed: bool, written: seq<SnapRow>)
      requires Valid() && connected
      requires Ready(G1545, now, v) ==> Ready(G1530, now, v)
      requires Ready(G1530, now, v) ==> Ready(G1000, now, v)
      modifies this`spxOpenOfficial, this`strike, this`anchor, this`connected
      modifies this`live, this`livePanels, this`snapDone, this`snapshots, this`logRows
      ensures Valid()
      ensures spxOpenOfficial == Latch(old(spxOpenOfficial), now, v.spxOpen)
      ensures var r := Reselect(old(chain), Selection(old(strike).value, old(anchor)), v.esLast);
        && changed == r.1
        && strike == Some(r.0.strike) && anchor == r.0.anchor
      ensures ok == !(changed && !old(subscribed))
      ensures connected == ok
      ensures ok ==>
        && live == v && livePanels == LiveRanges(v)
        && written == WrittenRows(old(snapDone), now, v)
        && snapDone == DoneAfter(old(snapDone), now, v)
        && snapshots == CaptureDue(old(snapshots), old(snapDone), now, v)
        && logRows == Bounded(old(logRows) + [LogRowOf(v)], LogCapacity)
      ensures !ok ==>
        && live == old(live) && livePanels == old(livePanels) && written == []
        && snapDone == old(snapDone) && snapshots == old(snapshots) && logRows == old(logRows)
    {
      ghost var snaps0, done0 := snapshots, snapDone;
      spxOpenOfficial := Latch(spxOpenOfficial, now, v.spxOpen);
      ok, changed := ReselectStrike(v.esLast);
      assert snapshots == snaps0 && snapDone == done0;
      if ok {
        written := Publish(now, v);
      } else {
        written := [];
      }
    }

    /**
     * The strike block of the tick body: reselect when ES has left the band. A
     * change swaps the option subscriptions; with no option pair subscribed the
     * swap fails and the connection ends (`ok` false).
     */
    method ReselectStrike(es: Option<real>) returns (ok: bool, changed: bool)
      requires Valid() && connected
      modifies this`strike, this`anchor, this`connected
      ensures Valid()
      ensures var r := Reselect(chain, Selection(old(strike).value, old(anchor)), es);
        && changed == r.1
        && strike == Some(r.0.strike) && anchor == r.0.anchor
      ensures ok == !(changed && !subscribed)
      ensures connected == ok
    {
      var r := Reselect(chain, Selection(strike.value, anchor), es);
      changed := r.1;
      ok := true;
      if changed {
        strike, anchor := Some(r.0.strike), r.0.anchor;
        if !subscribed {
          // cancelling the market data of a missing option ticker raises
          connected := false;
          ok := false;
        }
      }
    }

    /**
     * The rest of a tick that keeps its connection: publish the live values and
     * ladder, run the snapshot gates and append the tick row to the log.
     */
    method Publish(now: Time, v: TickView) returns (written: seq<SnapRow>)
      requires Valid()
      requires Ready(G1545, now, v) ==> Ready(G1530, now, v)
      requires Ready(G1530, now, v) ==> Ready(G1000, now, v)
      modifies this`live, this`livePanels, this`snapDone, this`snapshots, this`logRows
      ensures Valid()
      ensures live == v && livePanels == LiveRanges(v)
      ensures written == WrittenRows(old(snapDone), now, v)
      ensures snapDone == DoneAfter(old(snapDone), now, v)
      ensures snapshots == CaptureDue(old(snapshots), old(snapDone), now, v)
      ensures logRows == Bounded(old(logRows) + [LogRowOf(v)], LogCapacity)
    {
      live, livePanels := v, LiveRanges(v);
      written := CaptureGates(now, v);
      AppendLog(LogRowOf(v));
    }

    /** Append a tick row to the in-memory log, keeping only the newest `LogCapacity` rows. */
    method AppendLog(row: LogRow)
      requires |logRows| <= LogCapacity
      modifies this`logRows
      ensures logRows == Bounded(old(logRows) + [row], LogCapacity)
      ensures |logRows| <= LogCapacity && logRows[|logRows| - 1] == row
    {
      logRows := logRows + [row];
      if |logRows| > LogCapacity {
        logRows := logRows[|logRows| - LogCapacity..];
      }
    }

    /**
     * One pass of the worker loop: one more tick over a run that started from
     * `start`. Its contract is the loop invariant of `RunTicks` before and after
     * the tick; it stands apart from the loop so that the proof of each stays
     * small.
     */
    method RunTick(ticks: seq<TickInput>, count: nat, rows: seq<SnapRow>, ghost views: seq<TickView>,
                   ghost start: RunFields)
      returns (ok: bool, written: seq<SnapRow>, ghost v: TickView)
      requires Valid() && connected && count == |views| < |ticks|
      requires Fields() == RunAfter(chain, ticks, views, count, start) && start.done <= snapDone
      requires Traced(chain, ticks, start.sel, start.open, subscribed, true, count, views)
      requires forall s :: CountSlot(rows, s) == if GateOf(s) in snapDone - start.done then 1 else 0
      modifies this`spxOpenOfficial, this`strike, this`anchor, this`connected
      modifies this`live, this`livePanels, this`snapDone, this`snapshots, this`logRows
      ensures Valid() && connected == ok && strike.Some?
      ensures chain == old(chain) && subscribed == old(subscribed)
      ensures Fields() == RunAfter(chain, ticks, views + [v], if ok then count + 1 else count, start)
      ensures start.done <= snapDone
      ensures Traced(chain, ticks, start.sel, start.open, subscribed, ok, if ok then count + 1 else count, views + [v])
      ensures ok ==> forall s :: CountSlot(rows + written, s) == if GateOf(s) in snapDone - start.done then 1 else 0
      ensures !ok ==> snapDone == old(snapDone)
    {
      v := Observe(ticks[count], spxOpenOfficial, subscribed);
      ghost var done := snapDone;
      var changed;
      ok, changed, written := Tick(ticks[count]);
      TracedStep(chain, ticks, start.sel, start.open, subscribed, count, views, v, ok);
      if ok {
        CountAfterTick(rows, start.done, done, ticks[count].now, v);
        RunAfterStep(chain, ticks, views, v, start);
      } else {
        RunAfterStop(chain, ticks, views, v, start);
      }
    }

    /**
     * The worker loop while connected: run the ticks in order until they run out
     * or one ends the connection. The fields after it are those `RunAfter` gives
     * for the processed ticks' values `views`; `RunTicks` states what they mean.
     */
    method TickLoop(ticks: seq<TickInput>) returns (count: nat, rows: seq<SnapRow>, ghost views: seq<TickView>)
      requires Valid() && connected
      modifies this
      ensures Valid() && strike.Some? && chain == old(chain) && subscribed == old(subscribed)
      ensures |views| == (if connected then count else count + 1) && |views| <= |ticks|
      ensures connected ==> count == |ticks|
      ensures Fields() == RunAfter(chain, ticks, views, count, old(Fields()))
      ensures !connected ==> !subscribed && Swapped(chain, old(Fields()).sel, views, count)
      ensures forall k :: 0 <= k < count ==> subscribed || !Swapped(chain, old(Fields()).sel, views, k)
      ensures forall k :: 0 <= k < |views| ==> Observed(ticks, views, old(spxOpenOfficial), subscribed, k)
      ensures forall s :: CountSlot(rows, s) == if GateOf(s) in snapDone - old(snapDone) then 1 else 0
    {
      count, rows, views := 0, [], [];
      ghost var start := Fields();
      assert LogRowsOf([]) == [] && start.log + [] == start.log;
      while count < |ticks| && connected
        invariant Valid() && strike.Some?
        invariant chain == old(chain) && subscribed == old(subscribed) && |chain| > 0
        invariant Traced(chain, ticks, start.sel, start.open, subscribed, connected, count, views)
        invariant Fields() == RunAfter(chain, ticks, views, count, start) && start.done <= snapDone
        invariant forall s :: CountSlot(rows, s) == if GateOf(s) in snapDone - start.done then 1 else 0
        decreases |ticks| - count, if connected then 1 else 0
      {
        var ok, written, v := RunTick(ticks, count, rows, views, start);
        views := views + [v];
        if ok {
          rows := rows + written;
          count := count + 1;
        }
      }
    }

    /**
     * The worker loop while connected: run the ticks in order until they run out
     * or one ends the connection, which happens exactly on a tick that moves the
     * strike when no option pair is subscribed. `views` are the values the
     * processed ticks derived, each from its own quotes and the open latched
     * before it; the last one, when the connection ended, latched the open and
     * reselected but published nothing. The latched open and the strike and
     * anchor are those the processed ticks reach; the live values are those of
     * the last completed tick; the log holds the completed ticks' rows; the done
     * gates are those done before the run and those ready on a completed tick;
     * each slot got exactly one snapshot row if its gate became done during the
     * run and none otherwise; earlier snapshots stay as they were, and a slot
     * stored during the run holds the record of the first completed tick on
     * which its gate was ready.
     */
    method RunTicks(ticks: seq<TickInput>) returns (count: nat, rows: seq<SnapRow>, ghost views: seq<TickView>)
      requires Valid() && connected
      modifies this
      ensures Valid()
      ensures count <= |ticks|
      ensures connected <==> count == |ticks|
      ensures |views| == (if connected then count else count + 1)
      ensures old(subscribed) ==> connected
      ensures !connected ==> !old(subscribed) && Swapped(old(chain), Selection(old(strike).value, old(anchor)), views, count)
      ensures forall k :: 0 <= k < count ==>
                old(subscribed) || !Swapped(old(chain), Selection(old(strike).value, old(anchor)), views, k)
      ensures forall k :: 0 <= k < |views| ==> Observed(ticks, views, old(spxOpenOfficial), old(subscribed), k)
      ensures chain == old(chain) && subscribed == old(subscribed)
      ensures spxOpenOfficial == OpenRun(old(spxOpenOfficial), ticks, views)
      ensures old(spxOpenOfficial).Some? ==> spxOpenOfficial == old(spxOpenOfficial)
      ensures strike.Some?
      ensures Selection(strike.value, anchor)
              == AfterTicks(old(chain), Selection(old(strike).value, old(anchor)), EsPrices(views))
      ensures count == 0 ==> live == old(live) && livePanels == old(livePanels)
      ensures count > 0 ==> live == views[count - 1] && livePanels == LiveRanges(views[count - 1])
      ensures logRows == Bounded(old(logRows) + LogRowsOf(views[..count]), LogCapacity)
      ensures snapDone == DoneRun(old(snapDone), ticks, views[..count])
      ensures forall g :: g in snapDone <==> g in old(snapDone) || exists k :: 0 <= k < count && Ready(g, ticks[k].now, views[k])
      ensures forall s :: CountSlot(rows, s) == if GateOf(s) in snapDone - old(snapDone) then 1 else 0
      ensures snapshots == SnapsRun(old(snapshots), old(snapDone), ticks, views[..count])
      ensures forall s :: s in old(snapshots) ==> s in snapshots && snapshots[s] == old(snapshots)[s]
      ensures forall s :: s in snapshots && s !in old(snapshots) ==>
                exists k :: 0 <= k < count && Ready(GateOf(s), ticks[k].now, views[k])
                            && (forall j :: 0 <= j < k ==> !Ready(GateOf(s), ticks[j].now, views[j]))
                            && snapshots[s] == Record(s, views[k])
    {
      count, rows, views := TickLoop(ticks);
      if old(spxOpenOfficial).Some? {
        OpenRunKeepsLatch(old(spxOpenOfficial), ticks, views);
      }
      RunOutcome(old(snapshots), old(snapDone), ticks, views, count);
    }
  }
}
