/**
 * What one tick derives from the live quotes: the ES last price and the ES-SPX
 * spread, the SPX official open, the implied-volatility fractions, the ATM
 * straddle, the put/call ratio, the reference-price mode and the dealer
 * volatility spread. Every derived value is absent when an input it needs is
 * absent or zero (the source guards with Python truthiness), never an error.
 */
module Metrics {
  import opened Absence
  import opened Clock
  import opened Ranges

  type PosReal = r: real | r > 0.0 witness 1.0

  /** `SQRT_252`, the annualisation constant; the model only relies on it being positive. */
  const Sqrt252: PosReal

  /** `mode`: which price the ladder is centred on. */
  datatype Mode = MorningEsVwap | AfternoonSpxOpen

  /** `base_label_live` and the snapshot labels. */
  datatype BaseLabel = Vwap | Open | OpenPlusSpr

  /**
   * The raw quote fields one tick reads, and the wall-clock reading of the tick.
   * `spxBarOpen` is the open of the last daily SPX bar (Missing when the request
   * returns no bar or fails). The option fields are those of the subscribed ATM
   * call and put.
   */
  datatype TickInput = TickInput(
    now: Time,
    esLast: Quote, esClose: Quote, esVwap: Quote, esIv: Quote,
    spxLast: Quote, spxOpen: Quote, spxBarOpen: Quote,
    callBid: Quote, callAsk: Quote, putBid: Quote, putAsk: Quote)

  /** `nn(t_es.last) or nn(t_es.close)`. */
  function EsPrice(last: Quote, close: Quote): Option<real> {
    Or(Nn(last), Nn(close))
  }

  /** `spread_live`: ES minus SPX, present only when both prices are truthy. */
  function Spread(es: Option<real>, spx: Option<real>): (r: Option<real>)
    ensures r.Some? <==> BothTruthy(es, spx)
    ensures r.Some? ==> es.value == spx.value + r.value
  {
    if BothTruthy(es, spx) then Some(es.value - spx.value) else None
  }

  /**
   * The tick's `spx_open_off`: the latched official open if there is one; before
   * 15:30 nothing; from 15:30 on the live open, falling back to the daily bar's
   * open only when the live one is absent.
   */
  function OpenForTick(latched: Option<real>, now: Time, live: Quote, bar: Quote): (r: Option<real>)
    ensures latched.Some? ==> r == latched
    ensures latched.None? && !TimeGe(now, T1530) ==> r.None?
    ensures latched.None? && TimeGe(now, T1530) ==> r == (if Nn(live).None? then Nn(bar) else Nn(live))
  {
    if latched.None? && TimeGe(now, T1530) then
      var o := Nn(live);
      if o.None? then Nn(bar) else o
    else latched
  }

  /** `STATE["spx_open_official"]` after the tick: stored once, and only a truthy value. */
  function Latch(latched: Option<real>, now: Time, observed: Option<real>): (r: Option<real>)
    ensures latched.Some? ==> r == latched
    ensures latched.None? && r.Some? ==> TimeGe(now, T1530) && Truthy(r) && r == observed
    ensures latched.None? && TimeGe(now, T1530) && Truthy(observed) ==> r == observed
  {
    if latched.None? && TimeGe(now, T1530) && Truthy(observed) then observed else latched
  }

  /** `iv_annual_pct`: a raw IV below one (a fraction) is scaled to percent. */
  function IvAnnualPct(raw: Option<real>): Option<real> {
    if Truthy(raw) && raw.value < 1.0 then Some(raw.value * 100.0) else raw
  }

  /** `iv_daily_pct`: the annual percentage divided by the square root of 252. */
  function IvDailyPct(raw: Option<real>): Option<real> {
    var annual := IvAnnualPct(raw);
    if Truthy(annual) then Some(annual.value / Sqrt252) else None
  }

  /** A percentage as a fraction (`pct / 100.0 if pct else None`). */
  function Fraction(pct: Option<real>): (r: Option<real>)
    ensures r.Some? <==> Truthy(pct)
    ensures Truthy(r) <==> Truthy(pct)
  {
    if Truthy(pct) then Some(pct.value / 100.0) else None
  }

  /**
   * Unit normalisation of the implied volatility: a raw reading in (0, 1) is an
   * annual fraction and one of 1 or more an annual percentage; either way the
   * daily fraction is the annual fraction over the square root of 252.
   */
  lemma IvNormalisation(raw: real)
    ensures 0.0 < raw < 1.0 ==>
              IvDailyPct(Some(raw)) == Some(raw * 100.0 / Sqrt252) &&
              Fraction(IvDailyPct(Some(raw))) == Some(raw / Sqrt252)
    ensures raw >= 1.0 ==>
              IvDailyPct(Some(raw)) == Some(raw / Sqrt252) &&
              Fraction(IvDailyPct(Some(raw))) == Some(raw / 100.0 / Sqrt252)
    ensures raw == 0.0 ==> IvDailyPct(Some(raw)).None?
  {
    if 0.0 < raw < 1.0 {
      NonzeroQuotient(raw * 100.0);
      assert raw * 100.0 / Sqrt252 / 100.0 == raw / Sqrt252;
    } else if raw >= 1.0 {
      NonzeroQuotient(raw);
      assert raw / Sqrt252 / 100.0 == raw / 100.0 / Sqrt252;
    }
  }

  lemma NonzeroQuotient(x: real)
    requires x != 0.0
    ensures x / Sqrt252 != 0.0
  {
    if x / Sqrt252 == 0.0 {
      assert x == (x / Sqrt252) * Sqrt252;
    }
  }

  /** A missing IV leaves both daily figures absent. */
  lemma IvAbsent()
    ensures IvDailyPct(None).None? && Fraction(IvDailyPct(None)).None?
  {
  }

  /** The ATM straddle built from the call and put quotes. */
  datatype Straddle = Straddle(
    callMid: Option<real>, putMid: Option<real>,
    bid: Option<real>, ask: Option<real>, mid: Option<real>, spread: Option<real>,
    pcr: Option<real>)

  /** The straddle and put/call ratio; every field needs both of its operands truthy. */
  function StraddleOf(callBid: Option<real>, callAsk: Option<real>, putBid: Option<real>, putAsk: Option<real>): (s: Straddle)
    ensures s.callMid.Some? <==> BothTruthy(callBid, callAsk)
    ensures s.putMid.Some? <==> BothTruthy(putBid, putAsk)
    ensures s.bid.Some? <==> BothTruthy(callBid, putBid)
    ensures s.ask.Some? <==> BothTruthy(callAsk, putAsk)
    ensures s.mid.Some? <==> BothTruthy(s.bid, s.ask)
    ensures s.spread.Some? <==> BothTruthy(s.ask, s.bid)
    ensures s.spread.Some? ==> s.spread.value == s.ask.value - s.bid.value
    ensures s.mid.Some? ==> s.bid.value <= s.mid.value <= s.ask.value || s.ask.value <= s.mid.value <= s.bid.value
    ensures s.pcr.Some? <==> Truthy(s.putMid) && Truthy(s.callMid)
    ensures s.pcr.Some? ==> s.pcr.value * s.callMid.value == s.putMid.value
  {
    var callMid := if BothTruthy(callBid, callAsk) then Some((callBid.value + callAsk.value) / 2.0) else None;
    var putMid := if BothTruthy(putBid, putAsk) then Some((putBid.value + putAsk.value) / 2.0) else None;
    var bid := if BothTruthy(callBid, putBid) then Some(callBid.value + putBid.value) else None;
    var ask := if BothTruthy(callAsk, putAsk) then Some(callAsk.value + putAsk.value) else None;
    var mid := if BothTruthy(bid, ask) then Some((bid.value + ask.value) / 2.0) else None;
    var spread := if BothTruthy(ask, bid) then Some(ask.value - bid.value) else None;
    var pcr := if Truthy(putMid) && Truthy(callMid) && callMid.value != 0.0
               then Some(putMid.value / callMid.value) else None;
    Straddle(callMid, putMid, bid, ask, mid, spread, pcr)
  }

  /** A zero or absent call mid never yields a ratio (no division by zero). */
  lemma PcrGuarded(callBid: Option<real>, callAsk: Option<real>, putBid: Option<real>, putAsk: Option<real>)
    ensures var s := StraddleOf(callBid, callAsk, putBid, putAsk);
      (s.callMid.None? || s.callMid == Some(0.0)) ==> s.pcr.None?
  {
  }

  /** The mode, the base price of the ladder and its label. */
  datatype ModeChoice = ModeChoice(mode: Mode, base: Option<real>, baseLabel: BaseLabel)

  /**
   * Afternoon (SPX official open) exactly when it is 15:30 or later, the open is
   * neither absent nor zero, and a spread exists (even a zero one); else morning
   * (ES VWAP).
   */
  function ModeOf(now: Time, spxOpen: Option<real>, spread: Option<real>, vwap: Option<real>): (m: ModeChoice)
    ensures m.mode == AfternoonSpxOpen <==> TimeGe(now, T1530) && Truthy(spxOpen) && spread.Some?
    ensures m.mode == AfternoonSpxOpen ==> m.base == spxOpen && m.baseLabel == Open
    ensures m.mode == MorningEsVwap ==> m.base == vwap && m.baseLabel == Vwap
  {
    if TimeGe(now, T1530) && Truthy(spxOpen) && spread.Some? then ModeChoice(AfternoonSpxOpen, spxOpen, Open)
    else ModeChoice(MorningEsVwap, vwap, Vwap)
  }

  /** `iv_straddle_pct`: the straddle ask as a percentage of the base. */
  function IvStraddlePct(ask: Option<real>, base: Option<real>): (r: Option<real>)
    ensures r.Some? <==> BothTruthy(ask, base)
    ensures r.Some? ==> r.value * base.value == ask.value * 100.0
  {
    if BothTruthy(ask, base) then Some(ask.value / base.value * 100.0) else None
  }

  /** `r1_pts_live`: the daily expected move in points. */
  function R1Points(base: Option<real>, dailyFrac: Option<real>): (r: Option<real>)
    ensures r.Some? <==> BothTruthy(base, dailyFrac)
  {
    if BothTruthy(base, dailyFrac) then Some(base.value * dailyFrac.value) else None
  }

  /** `dvs`: the straddle mid as a percentage of the daily move; absent when that move is absent or zero. */
  function Dvs(mid: Option<real>, r1: Option<real>): (r: Option<real>)
    ensures r.Some? <==> BothTruthy(mid, r1)
    ensures r.Some? ==> r.value * r1.value == mid.value * 100.0
  {
    if Truthy(mid) && Truthy(r1) && r1.value != 0.0 then Some(mid.value / r1.value * 100.0) else None
  }

  /** The daily move is nonzero whenever base and daily fraction are. */
  lemma R1PointsTruthy(base: Option<real>, dailyFrac: Option<real>)
    ensures Truthy(R1Points(base, dailyFrac)) <==> BothTruthy(base, dailyFrac)
  {
  }

  /** Every value one tick derives, as the locals of the tick body. */
  datatype TickView = TickView(
    esLast: Option<real>, esVwap: Option<real>, spxLast: Option<real>,
    spread: Option<real>, spxOpen: Option<real>,
    ivDailyPct: Option<real>, ivDailyFrac: Option<real>,
    straddle: Straddle,
    mode: Mode, base: Option<real>, baseLabel: BaseLabel,
    ivStraddlePct: Option<real>, ivStraddleFrac: Option<real>,
    dvs: Option<real>)

  /** The option quotes as read: absent when no option pair is subscribed (`tc`/`tp` is `None`). */
  function OptionQuote(subscribed: bool, q: Quote): (r: Option<real>)
    ensures !subscribed ==> r.None?
  {
    if subscribed then Nn(q) else None
  }

  /**
   * The derived values of one tick, given the inputs, the latched SPX official
   * open from earlier ticks, and whether an option pair is subscribed.
   */
  function Observe(inp: TickInput, latched: Option<real>, subscribed: bool): (v: TickView)
    ensures v.spxOpen == OpenForTick(latched, inp.now, inp.spxOpen, inp.spxBarOpen)
    ensures v.mode == AfternoonSpxOpen <==> TimeGe(inp.now, T1530) && Truthy(v.spxOpen) && v.spread.Some?
    ensures v.mode == AfternoonSpxOpen ==> v.base == v.spxOpen && v.baseLabel == Open
    ensures v.mode == MorningEsVwap ==> v.base == Nn(inp.esVwap) && v.baseLabel == Vwap
    ensures Truthy(v.ivDailyFrac) <==> Truthy(v.ivDailyPct)
    ensures Truthy(v.ivStraddleFrac) <==> Truthy(v.ivStraddlePct)
    ensures Truthy(v.ivStraddleFrac) ==> Truthy(v.base)
  {
    var es := EsPrice(inp.esLast, inp.esClose);
    var vwap := Nn(inp.esVwap);
    var spx := Nn(inp.spxLast);
    var spread := Spread(es, spx);
    var open := OpenForTick(latched, inp.now, inp.spxOpen, inp.spxBarOpen);
    var ivPct := IvDailyPct(Nn(inp.esIv));
    var ivFrac := Fraction(ivPct);
    var str := StraddleOf(OptionQuote(subscribed, inp.callBid), OptionQuote(subscribed, inp.callAsk),
                          OptionQuote(subscribed, inp.putBid), OptionQuote(subscribed, inp.putAsk));
    var m := ModeOf(inp.now, open, spread, vwap);
    var sPct := IvStraddlePct(str.ask, m.base);
    var sFrac := Fraction(sPct);
    var dvs := Dvs(str.mid, R1Points(m.base, ivFrac));
    TickView(es, vwap, spx, spread, open, ivPct, ivFrac, str, m.mode, m.base, m.baseLabel, sPct, sFrac, dvs)
  }

  /** `live_ranges`: the ladder around the current base, empty while the base is absent or zero. */
  function LiveRanges(v: TickView): (r: Ladder)
    ensures r != [] <==> Truthy(v.base) && v.ivDailyFrac.Some? && v.ivStraddleFrac.Some?
    ensures r != [] ==> IsFull(r) && Level(r, Center) == v.base.value
  {
    if Truthy(v.base) then CalcRanges(v.base, v.ivDailyFrac, v.ivStraddleFrac) else []
  }

  /**
   * A morning tick with ES at 5000, VWAP 4995, SPX 4990 and a raw IV of 0.15:
   * the spread is 10, the annual IV 15 percent, the daily IV 15 over the square
   * root of 252, and with straddle quotes present the live ladder is full and
   * centred on the VWAP.
   */
  lemma MorningScenario()
    ensures var inp := TickInput(Time(11, 0),
                                 Finite(5000.0), Missing, Finite(4995.0), Finite(0.15),
                                 Finite(4990.0), Missing, Missing,
                                 Finite(10.0), Finite(11.0), Finite(9.0), Finite(10.0));
      var v := Observe(inp, None, true);
      && IvAnnualPct(Some(0.15)) == Some(15.0)
      && v.spread == Some(10.0)
      && v.ivDailyPct == Some(15.0 / Sqrt252)
      && v.mode == MorningEsVwap && v.base == Some(4995.0)
      && v.straddle.ask == Some(21.0)
      && IsFull(LiveRanges(v)) && Level(LiveRanges(v), Center) == 4995.0
  {
    var inp := TickInput(Time(11, 0),
                         Finite(5000.0), Missing, Finite(4995.0), Finite(0.15),
                         Finite(4990.0), Missing, Missing,
                         Finite(10.0), Finite(11.0), Finite(9.0), Finite(10.0));
    var v := Observe(inp, None, true);
    assert v.ivDailyPct == Some(15.0 / Sqrt252);
    PositiveProduct(15.0, 1.0 / Sqrt252);
    assert Truthy(v.ivDailyPct);
    assert v.straddle.ask == Some(21.0);
    assert Truthy(v.ivStraddlePct);
  }

  /**
   * An AFTERNOON tick latches the truthy open it used, and every later tick
   * reads that open, so once in AFTERNOON only a missing spread can bring a
   * tick back to MORNING.
   */
  lemma AfternoonLatchesOpen(inp: TickInput, latched: Option<real>, subscribed: bool, later: TickInput)
    ensures var v := Observe(inp, latched, subscribed);
      var after := Latch(latched, inp.now, v.spxOpen);
      v.mode == AfternoonSpxOpen ==> Truthy(after) && Truthy(Observe(later, after, subscribed).spxOpen)
  {
  }

  /**
   * After 15:30 with no official open the mode stays morning; on a later tick
   * where the open and a spread are present it switches to the open.
   */
  lemma AfternoonSwitchScenario(vwap: real, open: real, spread: real, t: Time)
    requires TimeGe(t, T1530) && open != 0.0
    ensures ModeOf(t, None, Some(spread), Some(vwap)) == ModeChoice(MorningEsVwap, Some(vwap), Vwap)
    ensures ModeOf(t, Some(0.0), Some(spread), Some(vwap)).mode == MorningEsVwap
    ensures ModeOf(t, Some(open), Some(spread), Some(vwap)) == ModeChoice(AfternoonSpxOpen, Some(open), Open)
    ensures ModeOf(t, Some(open), None, Some(vwap)).mode == MorningEsVwap
  {
  }
}
