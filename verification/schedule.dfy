/**
 * The three once-only snapshot gates (10:00, 15:30, 15:45), the records they
 * freeze and the snapshot rows they hand to the persistence sink.
 */
module Schedule {
  import opened Absence
  import opened Clock
  import opened Ranges
  import opened Metrics

  /** The `snap_done` keys. */
  datatype Gate = G1000 | G1530 | G1545

  /** The `STATE` snapshot slots, which are also the row labels ("ES_10:00", "SPX_15:30", ...). */
  datatype Slot = Es1000 | Spx1530 | Es1530 | Spx1545 | Es1545

  function GateOf(s: Slot): Gate {
    match s
    case Es1000 => G1000
    case Spx1530 | Es1530 => G1530
    case Spx1545 | Es1545 => G1545
  }

  /** The slots a gate writes, in the order it writes them. */
  function SlotsOf(g: Gate): (slots: seq<Slot>)
    ensures forall s :: s in slots <==> GateOf(s) == g
  {
    match g
    case G1000 => [Es1000]
    case G1530 => [Spx1530, Es1530]
    case G1545 => [Spx1545, Es1545]
  }

  function Threshold(g: Gate): Time {
    match g
    case G1000 => T1000
    case G1530 => T1530
    case G1545 => T1545
  }

  /** The gate's inputs are all truthy this tick. */
  predicate InputsReady(g: Gate, v: TickView) {
    match g
    case G1000 => Truthy(v.base) && Truthy(v.ivDailyFrac) && Truthy(v.ivStraddleFrac)
    case _ => Truthy(v.spxOpen) && Truthy(v.spread) && Truthy(v.ivDailyFrac) && Truthy(v.ivStraddleFrac)
  }

  /** The gate may fire this tick: its time has come and its inputs are all truthy. */
  predicate Ready(g: Gate, now: Time, v: TickView) {
    TimeGe(now, Threshold(g)) && InputsReady(g, v)
  }

  /** The gate fires this tick: it is ready and has not fired before. */
  predicate Fires(g: Gate, done: set<Gate>, now: Time, v: TickView) {
    g !in done && Ready(g, now, v)
  }

  /** A frozen snapshot: base, its label, the two IV percentages, the ladder and (ES records) the spread. */
  datatype Snapshot = Snapshot(
    base: real, baseLabel: BaseLabel,
    ivDailyPct: Option<real>, ivStraddlePct: Option<real>,
    ranges: Ladder, spread: Option<real>)

  /**
   * The record written to a slot: at 10:00 the ladder around the live base
   * (always labelled VWAP); at 15:30 and 15:45 the ladder around the SPX
   * official open, and the same ladder converted to ES with the live spread.
   */
  function Record(s: Slot, v: TickView): Snapshot
    requires InputsReady(GateOf(s), v)
  {
    match s
    case Es1000 =>
      Snapshot(v.base.value, Vwap, v.ivDailyPct, v.ivStraddlePct,
               CalcRanges(v.base, v.ivDailyFrac, v.ivStraddleFrac), None)
    case Spx1530 | Spx1545 =>
      Snapshot(v.spxOpen.value, Open, v.ivDailyPct, v.ivStraddlePct,
               CalcRanges(v.spxOpen, v.ivDailyFrac, v.ivStraddleFrac), None)
    case Es1530 | Es1545 =>
      Snapshot(ToEs(v.spxOpen, v.spread).value, OpenPlusSpr, v.ivDailyPct, v.ivStraddlePct,
               ToEsLadder(CalcRanges(v.spxOpen, v.ivDailyFrac, v.ivStraddleFrac), v.spread.value), v.spread)
  }

  /**
   * Every record is a full ladder centred on its base: the live base at 10:00,
   * the SPX official open for the SPX records, and the open plus the spread for
   * the ES records, whose ladder is the SPX ladder converted with that spread.
   */
  lemma RecordFacts(s: Slot, v: TickView)
    requires InputsReady(GateOf(s), v)
    ensures var r := Record(s, v);
      && IsFull(r.ranges) && Level(r.ranges, Center) == r.base
      && (s == Es1000 ==> r.base == v.base.value && r.baseLabel == Vwap && r.spread.None?)
      && (s == Spx1530 || s == Spx1545 ==> r.base == v.spxOpen.value && r.baseLabel == Open && r.spread.None?)
      && (s == Es1530 || s == Es1545 ==>
            && r.base == v.spxOpen.value + v.spread.value && r.baseLabel == OpenPlusSpr
            && r.spread == v.spread
            && r.ranges == ToEsLadder(CalcRanges(v.spxOpen, v.ivDailyFrac, v.ivStraddleFrac), v.spread.value))
      && r.ivDailyPct == v.ivDailyPct && r.ivStraddlePct == v.ivStraddlePct
  {
    if s == Es1530 || s == Es1545 {
      var spx := CalcRanges(v.spxOpen, v.ivDailyFrac, v.ivStraddleFrac);
      var es := ToEsLadder(spx, v.spread.value);
      assert Level(es, Center) == Level(spx, Center) + v.spread.value;
    }
  }

  /** Every stored record is a full ladder centred on its base. */
  predicate WellShaped(snaps: map<Slot, Snapshot>) {
    forall s :: s in snaps ==> IsFull(snaps[s].ranges) && Level(snaps[s].ranges, Center) == snaps[s].base
  }

  /** The two records of a 15:30 or 15:45 gate agree: the ES one is the SPX one shifted by its spread. */
  predicate ConvertedPair(snaps: map<Slot, Snapshot>, spx: Slot, es: Slot) {
    spx in snaps && es in snaps ==>
      && snaps[es].spread.Some?
      && snaps[es].base == snaps[spx].base + snaps[es].spread.value
      && snaps[es].ranges == ToEsLadder(snaps[spx].ranges, snaps[es].spread.value)
  }

  /** What every stored set of snapshots satisfies. */
  predicate Coherent(snaps: map<Slot, Snapshot>) {
    WellShaped(snaps) && ConvertedPair(snaps, Spx1530, Es1530) && ConvertedPair(snaps, Spx1545, Es1545)
  }

  /** The slots after a gate fires: its records written, in its order, over the earlier ones. */
  function Capture(snaps: map<Slot, Snapshot>, g: Gate, v: TickView): map<Slot, Snapshot>
    requires InputsReady(g, v)
  {
    match g
    case G1000 => snaps[Es1000 := Record(Es1000, v)]
    case G1530 => snaps[Spx1530 := Record(Spx1530, v)][Es1530 := Record(Es1530, v)]
    case G1545 => snaps[Spx1545 := Record(Spx1545, v)][Es1545 := Record(Es1545, v)]
  }

  /** Capturing a gate adds exactly its slots, with its records, and leaves every other slot as it was. */
  lemma CaptureSlots(snaps: map<Slot, Snapshot>, g: Gate, v: TickView)
    requires InputsReady(g, v)
    ensures var c := Capture(snaps, g, v);
      && (forall s :: s in c <==> s in snaps || GateOf(s) == g)
      && (forall s :: s in snaps && GateOf(s) != g ==> c[s] == snaps[s])
      && (forall s :: GateOf(s) == g ==> c[s] == Record(s, v))
  {
  }

  /** Capturing a gate keeps the stored snapshots coherent. */
  lemma CaptureKeepsCoherent(snaps: map<Slot, Snapshot>, g: Gate, v: TickView)
    requires InputsReady(g, v) && Coherent(snaps)
    ensures Coherent(Capture(snaps, g, v))
  {
    var c := Capture(snaps, g, v);
    CaptureSlots(snaps, g, v);
    forall s | s in c
      ensures IsFull(c[s].ranges) && Level(c[s].ranges, Center) == c[s].base
    {
      if GateOf(s) == g {
        RecordFacts(s, v);
      }
    }
    if g != G1000 {
      RecordFacts(SlotsOf(g)[0], v);
      RecordFacts(SlotsOf(g)[1], v);
    }
  }

  /** When the stored slots are exactly those of the done gates, capturing a gate keeps that so once it is done. */
  lemma CaptureMarksDone(snaps: map<Slot, Snapshot>, done: set<Gate>, g: Gate, v: TickView)
    requires InputsReady(g, v) && Coherent(snaps)
    requires forall s :: s in snaps <==> GateOf(s) in done
    ensures forall s :: s in Capture(snaps, g, v) <==> GateOf(s) in done + {g}
    ensures Coherent(Capture(snaps, g, v))
  {
    CaptureSlots(snaps, g, v);
    CaptureKeepsCoherent(snaps, g, v);
  }

  /** A gate's block of one tick: capture its records if it fires. */
  function CaptureIf(snaps: map<Slot, Snapshot>, done: set<Gate>, g: Gate, now: Time, v: TickView): map<Slot, Snapshot> {
    if Fires(g, done, now, v) then Capture(snaps, g, v) else snaps
  }

  /** The gates marked done after one tick: those done before and those that fire. */
  function DoneAfter(done: set<Gate>, now: Time, v: TickView): set<Gate> {
    DoneIf(DoneIf(DoneIf(done, G1000, now, v), G1530, now, v), G1545, now, v)
  }

  /** One gate block's effect on the done set: the gate is added when it fires. */
  function DoneIf(done: set<Gate>, g: Gate, now: Time, v: TickView): set<Gate> {
    if Fires(g, done, now, v) then done + {g} else done
  }

  /** After a tick a gate is done exactly when it was done before or was ready this tick. */
  lemma DoneAfterIff(done: set<Gate>, now: Time, v: TickView, g: Gate)
    ensures g in DoneAfter(done, now, v) <==> g in done || Ready(g, now, v)
  {
  }

  /** The three gate blocks of one tick, in order 10:00, 15:30, 15:45. */
  function CaptureDue(snaps: map<Slot, Snapshot>, done: set<Gate>, now: Time, v: TickView): map<Slot, Snapshot> {
    CaptureIf(CaptureIf(CaptureIf(snaps, done, G1000, now, v), done, G1530, now, v), done, G1545, now, v)
  }

  /**
   * When the stored slots are those of the gates already done, one tick's
   * captures add exactly the slots of the gates that fire and never touch a
   * stored record.
   */
  lemma CaptureDueOnlyAdds(snaps: map<Slot, Snapshot>, done: set<Gate>, now: Time, v: TickView)
    requires forall s :: s in snaps <==> GateOf(s) in done
    ensures var c := CaptureDue(snaps, done, now, v);
      && (forall s :: s in c <==> s in snaps || Fires(GateOf(s), done, now, v))
      && (forall s :: s in snaps ==> c[s] == snaps[s])
      && (forall s :: s in c && s !in snaps ==> c[s] == Record(s, v))
  {
    var c1 := CaptureIf(snaps, done, G1000, now, v);
    CaptureIfOnlyAdds(snaps, done, G1000, now, v);
    var c2 := CaptureIf(c1, done, G1530, now, v);
    CaptureIfOnlyAdds(c1, done, G1530, now, v);
    CaptureIfOnlyAdds(c2, done, G1545, now, v);
  }

  /** One gate block adds the gate's slots when it fires, and only when none is stored yet. */
  lemma CaptureIfOnlyAdds(snaps: map<Slot, Snapshot>, done: set<Gate>, g: Gate, now: Time, v: TickView)
    requires Fires(g, done, now, v) ==> forall s :: GateOf(s) == g ==> s !in snaps
    ensures var c := CaptureIf(snaps, done, g, now, v);
      && (forall s :: s in c <==> s in snaps || (GateOf(s) == g && Fires(g, done, now, v)))
      && (forall s :: s in snaps ==> c[s] == snaps[s])
      && (forall s :: s in c && s !in snaps ==> Fires(GateOf(s), done, now, v) && c[s] == Record(s, v))
  {
  }

  /** A snapshot row: slot, base label and value, SPX open, spread, IV percentages, nine level columns. */
  datatype SnapRow = SnapRow(
    slot: Slot, baseLabel: BaseLabel, baseValue: real,
    spxOpen: Option<real>, spread: Option<real>,
    ivDailyPct: Option<real>, ivStraddlePct: Option<real>,
    levels: seq<Option<real>>)

  function RowOf(s: Slot, r: Snapshot, v: TickView): SnapRow {
    SnapRow(s, r.baseLabel, r.base, v.spxOpen, v.spread, r.ivDailyPct, r.ivStraddlePct, RowLevels(r.ranges))
  }

  /**
   * The ladder labels the snapshot file's header names for the nine level
   * columns, as written: `R1_UP, R2_UP, CENTER, R2_DN, R1_DN, FIB_R1_UP,
   * FIB_R2_UP, FIB_R2_DN, FIB_R1_DN`.
   */
  const SnapHeaderAsWritten: seq<Key> :=
    [R1Up, R2Up, Center, R2Down, R1Down, FiboR1Up, FiboR2Up, FiboR2Down, FiboR1Down]

  /** The level-column header that matches the rows: the labels in `ORDER_KEYS` order. */
  const SnapHeader: seq<Key> := OrderKeys

  /** Every level column of a row holds the level of the label its header names. */
  predicate ColumnsAgree(header: seq<Key>, l: Ladder) {
    |header| == |RowLevels(l)| && forall i :: 0 <= i < |header| ==> RowLevels(l)[i] == Get(l, header[i])
  }

  /**
   * With the header as written, the column headed CENTER does not hold the
   * centre of a ladder built from a positive base and fractions: it holds R1 UP.
   */
  lemma HeaderAsWrittenMislabels(b: real, d: real, s: real)
    requires b > 0.0 && d > 0.0 && s > 0.0
    ensures var l := CalcRanges(Some(b), Some(d), Some(s));
      && SnapHeaderAsWritten[2] == Center
      && RowLevels(l)[2] == Some(Level(l, R1Up))
      && RowLevels(l)[2] != Get(l, Center)
      && !ColumnsAgree(SnapHeaderAsWritten, l)
  {
    var l := CalcRanges(Some(b), Some(d), Some(s));
    RowLevelsOfFull(l);
    GetFirst(l, Center, 4);
    LadderOrdering(b, d, s);
  }

  /** With the header in `ORDER_KEYS` order every level column holds the level its header names. */
  lemma HeaderMatchesRows(l: Ladder)
    requires IsFull(l)
    ensures ColumnsAgree(SnapHeader, l)
    ensures forall i :: 0 <= i < |SnapHeader| ==> RowLevels(l)[i] == Some(Level(l, SnapHeader[i]))
  {
    RowLevelsOfFull(l);
  }

  /** The rows one gate appends this tick: one per slot when it fires, none otherwise. */
  function GateRows(g: Gate, done: set<Gate>, now: Time, v: TickView): (rows: seq<SnapRow>)
    ensures |rows| == if Fires(g, done, now, v) then |SlotsOf(g)| else 0
  {
    if Fires(g, done, now, v) then
      seq(|SlotsOf(g)|, i requires 0 <= i < |SlotsOf(g)| => RowOf(SlotsOf(g)[i], Record(SlotsOf(g)[i], v), v))
    else []
  }

  /** All snapshot rows of one tick, gate by gate. */
  function WrittenRows(done: set<Gate>, now: Time, v: TickView): seq<SnapRow> {
    GateRows(G1000, done, now, v) + GateRows(G1530, done, now, v) + GateRows(G1545, done, now, v)
  }

  /** How many rows carry a slot label. */
  function CountSlot(rows: seq<SnapRow>, s: Slot): nat {
    if rows == [] then 0
    else (if rows[0].slot == s then 1 else 0) + CountSlot(rows[1..], s)
  }

  lemma {:induction false} CountSlotAppend(a: seq<SnapRow>, b: seq<SnapRow>, s: Slot)
    ensures CountSlot(a + b, s) == CountSlot(a, s) + CountSlot(b, s)
  {
    if a != [] {
      assert (a + b)[1..] == a[1..] + b;
      CountSlotAppend(a[1..], b, s);
    } else {
      assert a + b == b;
    }
  }

  lemma GateRowsCount(g: Gate, done: set<Gate>, now: Time, v: TickView, s: Slot)
    ensures CountSlot(GateRows(g, done, now, v), s) == if GateOf(s) == g && Fires(g, done, now, v) then 1 else 0
  {
    var rows := GateRows(g, done, now, v);
    if Fires(g, done, now, v) {
      match g
      case G1000 =>
        assert rows[0].slot == Es1000 && rows[1..] == [];
      case G1530 =>
        assert rows[0].slot == Spx1530 && rows[1].slot == Es1530 && rows[1..][1..] == [];
        assert CountSlot(rows[1..], s) == if s == Es1530 then 1 else 0;
      case G1545 =>
        assert rows[0].slot == Spx1545 && rows[1].slot == Es1545 && rows[1..][1..] == [];
        assert CountSlot(rows[1..], s) == if s == Es1545 then 1 else 0;
    }
  }

  /** In one tick a slot gets exactly one row if its gate fires, and none otherwise. */
  lemma WrittenRowsCount(done: set<Gate>, now: Time, v: TickView, s: Slot)
    ensures CountSlot(WrittenRows(done, now, v), s) == if Fires(GateOf(s), done, now, v) then 1 else 0
  {
    var a := GateRows(G1000, done, now, v);
    var b := GateRows(G1530, done, now, v);
    var c := GateRows(G1545, done, now, v);
    CountSlotAppend(a + b, c, s);
    CountSlotAppend(a, b, s);
    GateRowsCount(G1000, done, now, v, s);
    GateRowsCount(G1530, done, now, v, s);
    GateRowsCount(G1545, done, now, v, s);
  }

  /**
   * Across a run of ticks: if every slot has had one row exactly when its gate
   * became done since the start, that stays so after one more tick.
   */
  lemma CountAfterTick(rows: seq<SnapRow>, start: set<Gate>, done: set<Gate>, now: Time, v: TickView)
    requires start <= done
    requires forall s :: CountSlot(rows, s) == if GateOf(s) in done - start then 1 else 0
    ensures start <= DoneAfter(done, now, v)
    ensures forall s :: CountSlot(rows + WrittenRows(done, now, v), s)
                        == if GateOf(s) in DoneAfter(done, now, v) - start then 1 else 0
  {
    forall g | g in start
      ensures g in DoneAfter(done, now, v)
    {
      DoneAfterIff(done, now, v, g);
    }
    forall s
      ensures CountSlot(rows + WrittenRows(done, now, v), s)
              == if GateOf(s) in DoneAfter(done, now, v) - start then 1 else 0
    {
      CountSlotAppend(rows, WrittenRows(done, now, v), s);
      WrittenRowsCount(done, now, v, s);
      DoneAfterIff(done, now, v, GateOf(s));
    }
  }

  /** A gate that has fired writes nothing, however often it is polled. */
  lemma DoneGateIsSilent(g: Gate, done: set<Gate>, now: Time, v: TickView)
    requires g in done
    ensures GateRows(g, done, now, v) == []
  {
  }

  /**
   * On a tick observed by the engine, a ready 15:30 or 15:45 gate means the
   * afternoon mode is on, so its SPX record is centred on the live base.
   */
  lemma AfternoonGateMeansAfternoonMode(g: Gate, inp: TickInput, latched: Option<real>, subscribed: bool)
    ensures var v := Observe(inp, latched, subscribed);
      g != G1000 && Ready(g, inp.now, v) ==> v.mode == AfternoonSpxOpen && v.base == v.spxOpen
  {
    ThresholdsOrdered(inp.now);
  }

  /**
   * On a tick observed by the engine the gates are ready in order: a ready 15:45
   * gate means a ready 15:30 gate, which means a ready 10:00 gate.
   */
  lemma ReadyInOrder(inp: TickInput, latched: Option<real>, subscribed: bool)
    ensures var v := Observe(inp, latched, subscribed);
      && (Ready(G1545, inp.now, v) ==> Ready(G1530, inp.now, v))
      && (Ready(G1530, inp.now, v) ==> Ready(G1000, inp.now, v))
  {
    ThresholdsOrdered(inp.now);
  }

  /**
   * The 10:00 record is labelled VWAP even when the 10:00 gate first fires in the
   * afternoon mode, where its base is the SPX official open.
   */
  lemma TenOClockLabelIsFixed(v: TickView)
    requires InputsReady(G1000, v) && v.mode == AfternoonSpxOpen && v.baseLabel == Open
    ensures Record(Es1000, v).baseLabel == Vwap && Record(Es1000, v).baseLabel != v.baseLabel
  {
  }
}
