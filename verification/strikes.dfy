/**
 * Choice of the at-the-money strike of the same-day option chain, and its
 * re-choice with a hysteresis band: the strike is re-picked only once ES has
 * moved at least `RESELECT_POINTS` from the price recorded at the last pick.
 */
module Strikes {
  import opened Absence

  /** `RESELECT_POINTS`. */
  const ReselectPoints: real := 10.0

  function Abs(x: real): real {
    if x < 0.0 then -x else x
  }

  /**
   * `min(strikes, key=lambda k: abs(k - x))` as an index: a strike at least
   * distance from `x`, the first one in chain order among equally near strikes
   * (`min` scans left to right and replaces its pick only on a strictly smaller key).
   */
  function NearestIndex(strikes: seq<real>, x: real): (i: nat)
    requires |strikes| > 0
    ensures i < |strikes|
    ensures forall j :: 0 <= j < |strikes| ==> Abs(strikes[i] - x) <= Abs(strikes[j] - x)
    ensures forall j :: 0 <= j < i ==> Abs(strikes[j] - x) > Abs(strikes[i] - x)
  {
    if |strikes| == 1 then 0
    else
      var last := |strikes| - 1;
      var k := NearestIndex(strikes[..last], x);
      if Abs(strikes[last] - x) < Abs(strikes[k] - x) then last else k
  }

  /** The nearest chain strike to `x`. */
  function Nearest(strikes: seq<real>, x: real): real
    requires |strikes| > 0
  {
    strikes[NearestIndex(strikes, x)]
  }

  /** The ATM strike in use and the ES price recorded when it was picked (`strike`, `anchor`). */
  datatype Selection = Selection(strike: real, anchor: Option<real>)

  /**
   * The first pick on connecting: the strike nearest the ES price (`es_last or 0`),
   * with that price, possibly absent or zero, recorded as the anchor.
   */
  function InitialSelection(strikes: seq<real>, es: Option<real>): (s: Selection)
    requires |strikes| > 0
    ensures s.anchor == es
    ensures s.strike in strikes
    ensures forall k :: k in strikes ==> Abs(s.strike - OrZero(es)) <= Abs(k - OrZero(es))
    ensures exists i :: 0 <= i < |strikes| && strikes[i] == s.strike
                        && forall j :: 0 <= j < i ==> Abs(strikes[j] - OrZero(es)) > Abs(s.strike - OrZero(es))
  {
    Selection(Nearest(strikes, OrZero(es)), es)
  }

  /** The hysteresis guard: a price and an anchor, both truthy, at least `RESELECT_POINTS` apart. */
  predicate MovedPastBand(es: Option<real>, anchor: Option<real>) {
    Truthy(es) && Truthy(anchor) && Abs(es.value - anchor.value) >= ReselectPoints
  }

  /**
   * One tick's reselection: the new selection and whether it changed (which makes
   * the caller swap the option subscriptions). Strike and anchor change together,
   * to the nearest strike and the current ES price, and only when the price has
   * left the band and the nearest strike differs from the current one.
   */
  function Reselect(strikes: seq<real>, sel: Selection, es: Option<real>): (r: (Selection, bool))
    requires |strikes| > 0
    ensures r.1 <==> MovedPastBand(es, sel.anchor) && Nearest(strikes, es.value) != sel.strike
    ensures r.1 ==> r.0 == Selection(Nearest(strikes, es.value), es)
    ensures !r.1 ==> r.0 == sel
  {
    if MovedPastBand(es, sel.anchor) then
      var k := Nearest(strikes, es.value);
      if k != sel.strike then (Selection(k, es), true) else (sel, false)
    else (sel, false)
  }

  /** The selection after a sequence of ticks with the given ES prices. */
  function AfterTicks(strikes: seq<real>, sel: Selection, prices: seq<Option<real>>): Selection
    requires |strikes| > 0
    decreases |prices|
  {
    if prices == [] then sel
    else AfterTicks(strikes, Reselect(strikes, sel, prices[0]).0, prices[1..])
  }

  /** One more tick: the selection after it is that tick's reselection of the selection so far. */
  lemma {:induction false} AfterTicksAppend(strikes: seq<real>, sel: Selection, prices: seq<Option<real>>, es: Option<real>)
    requires |strikes| > 0
    ensures AfterTicks(strikes, sel, prices + [es]) == Reselect(strikes, AfterTicks(strikes, sel, prices), es).0
    decreases |prices|
  {
    if prices == [] {
      assert prices + [es] == [es];
    } else {
      assert (prices + [es])[1..] == prices[1..] + [es];
      AfterTicksAppend(strikes, Reselect(strikes, sel, prices[0]).0, prices[1..], es);
    }
  }

  /** With an absent or zero anchor no tick ever reselects: the first pick stays for good. */
  lemma {:induction false} AbsentAnchorIsSticky(strikes: seq<real>, sel: Selection, prices: seq<Option<real>>)
    requires |strikes| > 0
    requires !Truthy(sel.anchor)
    ensures AfterTicks(strikes, sel, prices) == sel
    decreases |prices|
  {
    if prices != [] {
      AbsentAnchorIsSticky(strikes, sel, prices[1..]);
    }
  }

  /** Every strike a run of ticks can end on is a chain strike (given that it started on one). */
  lemma {:induction false} StaysOnChain(strikes: seq<real>, sel: Selection, prices: seq<Option<real>>)
    requires |strikes| > 0 && sel.strike in strikes
    ensures AfterTicks(strikes, sel, prices).strike in strikes
    decreases |prices|
  {
    if prices != [] {
      StaysOnChain(strikes, Reselect(strikes, sel, prices[0]).0, prices[1..]);
    }
  }

  /**
   * Connecting without an ES price: the pick is the strike nearest 0, which on a
   * chain of positive strikes is the lowest one (the first of them in chain order),
   * and the anchor is absent, so no later tick moves it.
   */
  lemma NoStartPricePicksLowest(strikes: seq<real>, prices: seq<Option<real>>)
    requires |strikes| > 0
    requires forall j :: 0 <= j < |strikes| ==> strikes[j] > 0.0
    ensures var sel := InitialSelection(strikes, None);
      && (forall k :: k in strikes ==> sel.strike <= k)
      && AfterTicks(strikes, sel, prices) == sel
  {
    var sel := InitialSelection(strikes, None);
    forall k | k in strikes
      ensures sel.strike <= k
    {
      assert Abs(sel.strike - 0.0) <= Abs(k - 0.0);
    }
    AbsentAnchorIsSticky(strikes, sel, prices);
  }

  /** Strikes 4000 and 4010 with ES at 4005, equally near both: the first in chain order wins. */
  lemma TieGoesToFirstStrike()
    ensures InitialSelection([4000.0, 4010.0], Some(4005.0)).strike == 4000.0
  {
  }

  /** A reselection settles: repeating the triggering price does not reselect again. */
  lemma ReselectSettles(strikes: seq<real>, sel: Selection, es: Option<real>)
    requires |strikes| > 0
    requires Reselect(strikes, sel, es).1
    ensures Reselect(strikes, Reselect(strikes, sel, es).0, es) == (Reselect(strikes, sel, es).0, false)
  {
  }

  /** Strikes 4000, 4010, ..., 4200. */
  function Chain4000(): (c: seq<real>)
    ensures |c| == 21
    ensures forall i :: 0 <= i < 21 ==> c[i] == 4000.0 + 10.0 * (i as real)
  {
    seq(21, i => 4000.0 + 10.0 * (i as real))
  }

  /**
   * On the chain 4000..4200 with strike and anchor at 4050: a move to 4059 stays
   * inside the band; a move to 4061 re-picks 4060 and records 4061.
   */
  lemma ReselectScenario()
    ensures Reselect(Chain4000(), Selection(4050.0, Some(4050.0)), Some(4059.0))
            == (Selection(4050.0, Some(4050.0)), false)
    ensures Reselect(Chain4000(), Selection(4050.0, Some(4050.0)), Some(4061.0))
            == (Selection(4060.0, Some(4061.0)), true)
  {
    var c := Chain4000();
    var i := NearestIndex(c, 4061.0);
    assert Abs(c[i] - 4061.0) <= Abs(c[6] - 4061.0);
    assert c[i] == 4060.0;
  }
}
