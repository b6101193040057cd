/**
 * The range ladder: nine price levels derived from a base price and two
 * volatility fractions, kept in a fixed top-to-bottom order, and the additive
 * conversion of an SPX level into ES points.
 */
module Ranges {
  import opened Absence

  /** The nine ladder labels ("FIBO EST R1 UP", ..., "FIBO EST R1 DOWN"). */
  datatype Key =
    | FiboR1Up | FiboR2Up | R1Up | R2Up | Center | R2Down | R1Down | FiboR2Down | FiboR1Down

  /** `ORDER_KEYS`: the rendering order, top to bottom. */
  const OrderKeys: seq<Key> :=
    [FiboR1Up, FiboR2Up, R1Up, R2Up, Center, R2Down, R1Down, FiboR2Down, FiboR1Down]

  /** Fibonacci extension ratios: expansion upwards, contraction downwards. */
  const FibUp: real := 1.618
  const FibDn: real := 0.618

  /** One `(label, level)` item of the ordered dictionary. */
  datatype Entry = Entry(key: Key, level: real)

  /** An ordered dictionary from labels to levels, in insertion order. */
  type Ladder = seq<Entry>

  /** Two ladders carry the same labels in the same order. */
  predicate SameKeys(a: Ladder, b: Ladder) {
    |a| == |b| && forall i :: 0 <= i < |a| ==> a[i].key == b[i].key
  }

  /** A ladder holding exactly the nine labels, in `ORDER_KEYS` order. */
  predicate IsFull(l: Ladder) {
    |l| == |OrderKeys| && forall i :: 0 <= i < |l| ==> l[i].key == OrderKeys[i]
  }

  /** Position of a label in `ORDER_KEYS`. */
  function Pos(k: Key): (i: nat)
    ensures i < |OrderKeys| && OrderKeys[i] == k
  {
    match k
    case FiboR1Up => 0
    case FiboR2Up => 1
    case R1Up => 2
    case R2Up => 3
    case Center => 4
    case R2Down => 5
    case R1Down => 6
    case FiboR2Down => 7
    case FiboR1Down => 8
  }

  /** The level a full ladder gives to a label. */
  function Level(l: Ladder, k: Key): real
    requires IsFull(l)
  {
    l[Pos(k)].level
  }

  /** `ranges.get(k)`: the level of the first entry labelled `k`, if any. */
  function Get(l: Ladder, k: Key): Option<real> {
    if l == [] then None
    else if l[0].key == k then Some(l[0].level)
    else Get(l[1..], k)
  }

  /**
   * `calc_ranges(base, iv_daily_frac, iv_straddle_frac)`: empty when any input
   * is absent; otherwise the nine labels in `ORDER_KEYS` order, centred on the base.
   */
  function CalcRanges(base: Option<real>, dailyFrac: Option<real>, straddleFrac: Option<real>): (r: Ladder)
    ensures base.None? || dailyFrac.None? || straddleFrac.None? ==> r == []
    ensures base.Some? && dailyFrac.Some? && straddleFrac.Some? ==>
              IsFull(r) && Level(r, Center) == base.value
  {
    if base.None? || dailyFrac.None? || straddleFrac.None? then []
    else
      var b := base.value;
      var r1 := b * dailyFrac.value;
      var r2 := b * straddleFrac.value;
      [ Entry(FiboR1Up, b + r1 * FibUp),
        Entry(FiboR2Up, b + r2 * FibUp),
        Entry(R1Up, b + r1),
        Entry(R2Up, b + r2),
        Entry(Center, b),
        Entry(R2Down, b - r2),
        Entry(R1Down, b - r1),
        Entry(FiboR2Down, b - r2 * FibDn),
        Entry(FiboR1Down, b - r1 * FibDn) ]
  }

  /**
   * With a positive base and positive fractions: every UP level lies above CENTER,
   * CENTER above every DOWN level, the upper Fibonacci levels beyond their R
   * levels and the lower ones between their R level and CENTER.
   */
  lemma LadderOrdering(b: real, d: real, s: real)
    requires b > 0.0 && d > 0.0 && s > 0.0
    ensures var r := CalcRanges(Some(b), Some(d), Some(s));
      && Level(r, FiboR1Up) > Level(r, R1Up) > Level(r, Center)
      && Level(r, FiboR2Up) > Level(r, R2Up) > Level(r, Center)
      && Level(r, R1Down) < Level(r, FiboR1Down) < Level(r, Center)
      && Level(r, R2Down) < Level(r, FiboR2Down) < Level(r, Center)
  {
    PositiveProduct(b, d);
    PositiveProduct(b, s);
  }

  /**
   * Whether R1 lies outside R2 depends on the fractions: R1 DOWN is below R2 DOWN
   * (and R1 UP above R2 UP) exactly when the daily fraction exceeds the straddle one.
   */
  lemma R1OutsideR2Iff(b: real, d: real, s: real)
    requires b > 0.0
    ensures var r := CalcRanges(Some(b), Some(d), Some(s));
      && (Level(r, R1Down) < Level(r, R2Down) <==> d > s)
      && (Level(r, R1Up) > Level(r, R2Up) <==> d > s)
  {
    if d > s {
      PositiveProduct(b, d - s);
    } else {
      NonNegativeProduct(b, s - d);
    }
  }

  lemma PositiveProduct(x: real, y: real)
    requires x > 0.0 && y > 0.0
    ensures x * y > 0.0
  {
  }

  lemma NonNegativeProduct(x: real, y: real)
    requires x > 0.0 && y >= 0.0
    ensures x * y >= 0.0
  {
  }

  /** `to_es(x, spread)`: an SPX level shifted by the ES-SPX spread; absent if either is. */
  function ToEs(x: Option<real>, spread: Option<real>): (r: Option<real>)
    ensures r.Some? <==> x.Some? && spread.Some?
  {
    if x.None? || spread.None? then None else Some(x.value + spread.value)
  }

  /** Converting to ES and back with the opposite spread gives the level back. */
  lemma ToEsRoundTrip(x: real, spread: real)
    ensures ToEs(ToEs(Some(x), Some(spread)), Some(-spread)) == Some(x)
  {
  }

  /** The ES ladder of a snapshot: every level mapped through `to_es`, labels kept. */
  function ToEsLadder(l: Ladder, spread: real): (r: Ladder)
    ensures SameKeys(r, l)
    ensures forall i :: 0 <= i < |l| ==> Some(r[i].level) == ToEs(Some(l[i].level), Some(spread))
  {
    seq(|l|, i requires 0 <= i < |l| => Entry(l[i].key, ToEs(Some(l[i].level), Some(spread)).value))
  }

  /** Converting a whole ladder to ES and back restores it. */
  lemma ToEsLadderRoundTrip(l: Ladder, spread: real)
    ensures ToEsLadder(ToEsLadder(l, spread), -spread) == l
  {
    var back := ToEsLadder(ToEsLadder(l, spread), -spread);
    forall i | 0 <= i < |l|
      ensures back[i] == l[i]
    {
      ToEsRoundTrip(l[i].level, spread);
    }
  }

  /** The conversion shifts every level by the same amount, so it keeps their order. */
  lemma ToEsLadderKeepsOrder(l: Ladder, spread: real, i: nat, j: nat)
    requires i < |l| && j < |l|
    ensures var r := ToEsLadder(l, spread);
      r[i].level < r[j].level <==> l[i].level < l[j].level
  {
  }

  /** `ranges.get(k)` finds the first entry carrying label `k`. */
  lemma {:induction false} GetFirst(l: Ladder, k: Key, i: nat)
    requires i < |l| && l[i].key == k
    requires forall j :: 0 <= j < i ==> l[j].key != k
    ensures Get(l, k) == Some(l[i].level)
  {
    if i > 0 {
      GetFirst(l[1..], k, i - 1);
    }
  }

  /** The snapshot row's level columns: `[ranges.get(k) for k in ORDER_KEYS]`. */
  function RowLevels(l: Ladder): seq<Option<real>> {
    seq(|OrderKeys|, i requires 0 <= i < |OrderKeys| => Get(l, OrderKeys[i]))
  }

  /** For a full ladder the level columns are its levels, in ladder order. */
  lemma RowLevelsOfFull(l: Ladder)
    requires IsFull(l)
    ensures |RowLevels(l)| == |l|
    ensures forall i :: 0 <= i < |l| ==> RowLevels(l)[i] == Some(l[i].level)
  {
    forall i | 0 <= i < |l|
      ensures RowLevels(l)[i] == Some(l[i].level)
    {
      GetFirst(l, OrderKeys[i], i);
    }
  }

  /** For an empty ladder every level column is absent. */
  lemma RowLevelsOfEmpty()
    ensures RowLevels([]) == seq(|OrderKeys|, _ => None)
  {
  }
}
