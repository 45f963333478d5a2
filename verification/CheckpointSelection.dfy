/**
 Which evaluation is "best": the incremental rule of
 uav_agent/experiments/checkpoint_manager.py against the after-the-fact choice
 of uav_agent/experiments/plotter.py.
 */
module CheckpointSelection {
  import opened Common

  /** A metric as it arrives: missing, present but not a finite number, or a number. */
  datatype Cell = Absent | Unusable | Number(value: real)

  datatype Metrics = Metrics(success: Cell, falseLock: Cell, collision: Cell, safetyAbort: Cell,
                             meanMissionTimeS: Cell, missionTimeS: Cell, missionTime: Cell)

  datatype Canonical = Canonical(success: real, falseLock: real, collision: real, safetyAbort: real, missionTime: real)

  const NO_MISSION_TIME := 1.0e300

  /** A float that may be infinite, as the plotter's key may be. */
  datatype Extended = Finite(value: real) | Infinite

  predicate Below(a: Extended, b: Extended) {
    a.Finite? && (b.Infinite? || a.value < b.value)
  }

  /** Python's tuple order. */
  predicate LexLess(a: seq<Extended>, b: seq<Extended>) {
    if b == [] then false
    else if a == [] then true
    else Below(a[0], b[0]) || (a[0] == b[0] && LexLess(a[1..], b[1..]))
  }

  lemma {:induction false} LexOrder(a: seq<Extended>, b: seq<Extended>, c: seq<Extended>)
    ensures LexLess(a, b) && LexLess(b, c) ==> LexLess(a, c)
    ensures !LexLess(a, a) && (LexLess(a, b) || a == b || LexLess(b, a))
  {
    if a != [] {
      LexOrder(a[1..], if b == [] then [] else b[1..], if c == [] then [] else c[1..]);
      if b != [] {
        assert a == [a[0]] + a[1..] && b == [b[0]] + b[1..];
      }
    } else if b != [] && c != [] {
      LexOrder([], b[1..], c[1..]);
    }
  }

  // -------------------------------------------- the manager's canonical form

  function Rate(c: Cell): Option<real> {
    match c
    case Absent => Some(1.0)
    case Unusable => None
    case Number(v) => if 0.0 <= v <= 1.0 then Some(v) else None
  }

  /** The first of the three accepted keys that is present. */
  function MissionTimeCell(m: Metrics): Cell {
    if !m.meanMissionTimeS.Absent? then m.meanMissionTimeS
    else if !m.missionTimeS.Absent? then m.missionTimeS
    else m.missionTime
  }

  function Time(c: Cell): Option<real> {
    match c
    case Absent => Some(NO_MISSION_TIME)
    case Unusable => None
    case Number(v) => if v >= 0.0 then Some(v) else None
  }

  /** `_validated_selection_metrics`; None where the source raises. */
  function Validated(m: Metrics): Option<Canonical> {
    var rates := (Rate(m.success), Rate(m.falseLock), Rate(m.collision), Rate(m.safetyAbort), Time(MissionTimeCell(m)));
    if m.success.Absent? || rates.0.None? || rates.1.None? || rates.2.None? || rates.3.None? || rates.4.None? then None
    else Some(Canonical(rates.0.value, rates.1.value, rates.2.value, rates.3.value, rates.4.value))
  }

  /** The metadata stored with the best checkpoint. */
  function Stored(c: Canonical): Metrics {
    Metrics(Number(c.success), Number(c.falseLock), Number(c.collision), Number(c.safetyAbort),
            Number(c.missionTime), Absent, Absent)
  }

  /** Canonicalising what was stored gives it back. */
  lemma CanonicalOnce(m: Metrics)
    requires Validated(m).Some?
    ensures Validated(Stored(Validated(m).value)) == Validated(m)
  {
  }

  /** `_selection_key`. */
  function SelectionKey(c: Canonical): seq<Extended> {
    [Finite(-c.success), Finite(c.falseLock), Finite(c.collision), Finite(c.safetyAbort), Finite(c.missionTime)]
  }

  class BestCheckpoint {
    const enabled: bool
    var selection: Option<Metrics>   // the selection metrics stored in the slot
    var step: int

    constructor (enabled: bool)
      ensures this.enabled == enabled && selection.None?
    {
      this.enabled, selection, step := enabled, None, 0;
    }

    ghost predicate Valid()
      reads this
    {
      selection.Some? ==> exists c | Validated(Stored(c)) == Some(c) :: selection.value == Stored(c)
    }

    /** `maybe_save_best`: None where the source raises, otherwise whether it saved. */
    method MaybeSaveBest(globalStep: int, metrics: Metrics) returns (saved: Option<bool>)
      requires Valid()
      modifies this
      ensures Valid()
      ensures saved.None? <==> enabled && Validated(metrics).None?
      ensures saved == Some(true) <==>
        (&& enabled && Validated(metrics).Some?
         && (old(selection).None? ||
             LexLess(SelectionKey(Validated(metrics).value), SelectionKey(Validated(old(selection).value).value))))
      ensures saved == Some(true) ==> selection == Some(Stored(Validated(metrics).value)) && step == globalStep
      ensures saved != Some(true) ==> selection == old(selection) && step == old(step)
    {
      if !enabled {
        return Some(false);
      }
      var candidate := Validated(metrics);
      if candidate.None? {
        return None;
      }
      CanonicalOnce(metrics);
      if selection.Some? {
        var current := Validated(selection.value).value;
        if !LexLess(SelectionKey(candidate.value), SelectionKey(current)) {
          return Some(false);
        }
      }
      selection, step := Some(Stored(candidate.value)), globalStep;
      return Some(true);
    }
  }

  // ------------------------------------------------------- the plotter's form

  function Parsed(c: Cell): Option<real> { if c.Number? then Some(c.value) else None }

  function OrOne(c: Cell): Extended { if c.Number? then Finite(c.value) else Finite(1.0) }

  function PlotTime(m: Metrics): Extended {
    if m.meanMissionTimeS.Number? then Finite(m.meanMissionTimeS.value) else Infinite
  }

  function PlotKey(m: Metrics): seq<Extended>
    requires m.success.Number?
  {
    [Finite(-m.success.value), OrOne(m.falseLock), OrOne(m.collision), OrOne(m.safetyAbort), PlotTime(m)]
  }

  /** The row of `at` comes before every other candidate row, earlier rows winning ties. */
  ghost predicate EarliestMinimum(rows: seq<Metrics>, at: nat, upTo: nat) {
    && at < upTo <= |rows| && rows[at].success.Number?
    && (forall i | 0 <= i < at && rows[i].success.Number? :: LexLess(PlotKey(rows[at]), PlotKey(rows[i])))
    && (forall i | at < i < upTo && rows[i].success.Number? :: !LexLess(PlotKey(rows[i]), PlotKey(rows[at])))
  }

  ghost predicate NoCandidate(rows: seq<Metrics>, upTo: nat)
    requires upTo <= |rows|
  {
    forall i | 0 <= i < upTo :: !rows[i].success.Number?
  }

  lemma MinimumUnique(rows: seq<Metrics>, a: nat, b: nat)
    requires EarliestMinimum(rows, a, |rows|) && EarliestMinimum(rows, b, |rows|)
    ensures a == b
  {
  }

  /** `_best_eval_index`: the minimum of (key, index) over the rows with a success rate. */
  method BestEvalIndex(rows: seq<Metrics>) returns (best: Option<nat>)
    ensures best.None? ==> NoCandidate(rows, |rows|)
    ensures best.Some? ==> EarliestMinimum(rows, best.value, |rows|)
  {
    best := None;
    for index := 0 to |rows|
      invariant best.None? ==> NoCandidate(rows, index)
      invariant best.Some? ==> EarliestMinimum(rows, best.value, index)
    {
      if Parsed(rows[index].success).Some? {
        if best.None? || LexLess(PlotKey(rows[index]), PlotKey(rows[best.value])) {
          if best.Some? {
            NewMinimum(rows, best.value, index);
          }
          best := Some(index);
        }
      }
    }
  }

  lemma NewMinimum(rows: seq<Metrics>, at: nat, index: nat)
    requires index < |rows| && EarliestMinimum(rows, at, index)
    requires rows[index].success.Number? && LexLess(PlotKey(rows[index]), PlotKey(rows[at]))
    ensures EarliestMinimum(rows, index, index + 1)
  {
    forall i | 0 <= i < index && rows[i].success.Number? ensures LexLess(PlotKey(rows[index]), PlotKey(rows[i])) {
      LexOrder(PlotKey(rows[index]), PlotKey(rows[at]), PlotKey(rows[i]));
      LexOrder(PlotKey(rows[at]), PlotKey(rows[i]), PlotKey(rows[index]));
    }
  }

  // ------------------------------------------------------------- agreement

  /** The manager and the plotter read the same mission time from the row. */
  predicate Plain(m: Metrics) {
    && Validated(m).Some?
    && var t := Validated(m).value.missionTime;
       if PlotTime(m).Infinite? then t == NO_MISSION_TIME else t < NO_MISSION_TIME
  }

  predicate ManagerPrefers(a: Metrics, b: Metrics)
    requires Validated(a).Some? && Validated(b).Some?
  {
    LexLess(SelectionKey(Validated(a).value), SelectionKey(Validated(b).value))
  }

  predicate PlotterPrefers(a: Metrics, b: Metrics)
    requires Validated(a).Some? && Validated(b).Some?
  {
    LexLess(PlotKey(a), PlotKey(b))
  }

  lemma FiveUnrolled(a: seq<Extended>, b: seq<Extended>)
    requires |a| == 5 && |b| == 5
    ensures LexLess(a, b) <==>
      || Below(a[0], b[0])
      || (a[0] == b[0] && (|| Below(a[1], b[1])
      || (a[1] == b[1] && (|| Below(a[2], b[2])
      || (a[2] == b[2] && (|| Below(a[3], b[3])
      || (a[3] == b[3] && Below(a[4], b[4]))))))))
  {
    assert a[1..][1..] == a[2..] && a[2..][1..] == a[3..] && a[3..][1..] == a[4..] && a[4..][1..] == [];
    assert b[1..][1..] == b[2..] && b[2..][1..] == b[3..] && b[3..][1..] == b[4..] && b[4..][1..] == [];
    assert LexLess(a[4..], b[4..]) <==> Below(a[4], b[4]);
    assert LexLess(a[3..], b[3..]) <==> Below(a[3], b[3]) || (a[3] == b[3] && LexLess(a[4..], b[4..]));
    assert LexLess(a[2..], b[2..]) <==> Below(a[2], b[2]) || (a[2] == b[2] && LexLess(a[3..], b[3..]));
    assert LexLess(a[1..], b[1..]) <==> Below(a[1], b[1]) || (a[1] == b[1] && LexLess(a[2..], b[2..]));
  }

  /** The manager prefers the higher success rate, then the lower false-lock, collision and abort rates, then the time. */
  lemma SelectionOrder(a: Canonical, b: Canonical)
    ensures LexLess(SelectionKey(a), SelectionKey(b)) <==>
      || a.success > b.success
      || (a.success == b.success && (|| a.falseLock < b.falseLock
      || (a.falseLock == b.falseLock && (|| a.collision < b.collision
      || (a.collision == b.collision && (|| a.safetyAbort < b.safetyAbort
      || (a.safetyAbort == b.safetyAbort && a.missionTime < b.missionTime)))))))
  {
    FiveUnrolled(SelectionKey(a), SelectionKey(b));
  }

  /** The plotter reads a missing rate as one, and a missing time as longer than any. */
  lemma PlotOrder(a: Metrics, b: Metrics)
    requires a.success.Number? && b.success.Number?
    ensures var (rate, time) := ((c: Cell) => if c.Number? then c.value else 1.0, (m: Metrics) => m.meanMissionTimeS);
      LexLess(PlotKey(a), PlotKey(b)) <==>
      || a.success.value > b.success.value
      || (a.success.value == b.success.value && (|| rate(a.falseLock) < rate(b.falseLock)
      || (rate(a.falseLock) == rate(b.falseLock) && (|| rate(a.collision) < rate(b.collision)
      || (rate(a.collision) == rate(b.collision) && (|| rate(a.safetyAbort) < rate(b.safetyAbort)
      || (rate(a.safetyAbort) == rate(b.safetyAbort)
          && time(a).Number? && (time(b).Number? ==> time(a).value < time(b).value))))))))
  {
    FiveUnrolled(PlotKey(a), PlotKey(b));
  }

  lemma PlainRowsOrderedAlike(a: Metrics, b: Metrics)
    requires Plain(a) && Plain(b)
    ensures ManagerPrefers(a, b) <==> PlotterPrefers(a, b)
  {
    FiveUnrolled(SelectionKey(Validated(a).value), SelectionKey(Validated(b).value));
    FiveUnrolled(PlotKey(a), PlotKey(b));
  }

  /** A valid row is ordered alike by both among all plain rows exactly when it is plain itself. */
  lemma OrderedAlikeIff(r: Metrics)
    requires Validated(r).Some?
    ensures Plain(r) <==>
      forall q | Plain(q) :: (ManagerPrefers(r, q) <==> PlotterPrefers(r, q))
                          && (ManagerPrefers(q, r) <==> PlotterPrefers(q, r))
  {
    if Plain(r) {
      forall q | Plain(q) ensures (ManagerPrefers(r, q) <==> PlotterPrefers(r, q))
                                  && (ManagerPrefers(q, r) <==> PlotterPrefers(q, r)) {
        PlainRowsOrderedAlike(r, q);
        PlainRowsOrderedAlike(q, r);
      }
    } else {
      var q := Witness(r);
      FiveUnrolled(SelectionKey(Validated(r).value), SelectionKey(Validated(q).value));
      FiveUnrolled(SelectionKey(Validated(q).value), SelectionKey(Validated(r).value));
      FiveUnrolled(PlotKey(r), PlotKey(q));
      FiveUnrolled(PlotKey(q), PlotKey(r));
      assert Plain(q);
    }
  }

  /** A plain row with the same rates that the two rules place on different sides of r. */
  function Witness(r: Metrics): Metrics
    requires Validated(r).Some?
  {
    var t := Validated(r).value.missionTime;
    Metrics(r.success, r.falseLock, r.collision, r.safetyAbort,
            if PlotTime(r).Infinite? && t < NO_MISSION_TIME then Number((t + NO_MISSION_TIME) / 2.0) else Absent,
            Absent, Absent)
  }

  /** The evaluation whose checkpoint is in the best slot after the rows so far. */
  function BestAfter(rows: seq<Metrics>): (best: Option<nat>)
    ensures best.Some? ==> best.value < |rows| && Validated(rows[best.value]).Some?
  {
    if rows == [] then None else
      var before := BestAfter(rows[..|rows| - 1]);
      var last := rows[|rows| - 1];
      if Validated(last).None? then before
      else if before.None? || ManagerPrefers(last, rows[before.value]) then Some(|rows| - 1)
      else before
  }

  /** Calling `maybe_save_best` after every evaluation leaves the row of `BestAfter` in the slot. */
  method SaveAlong(rows: seq<Metrics>) returns (manager: BestCheckpoint)
    ensures BestAfter(rows).None? ==> manager.selection.None?
    ensures BestAfter(rows).Some? ==>
      && manager.step == BestAfter(rows).value
      && manager.selection == Some(Stored(Validated(rows[BestAfter(rows).value]).value))
  {
    manager := new BestCheckpoint(true);
    for i := 0 to |rows|
      invariant fresh(manager) && manager.Valid() && manager.enabled
      invariant BestAfter(rows[..i]).None? ==> manager.selection.None?
      invariant BestAfter(rows[..i]).Some? ==>
        && manager.step == BestAfter(rows[..i]).value
        && manager.selection == Some(Stored(Validated(rows[BestAfter(rows[..i]).value]).value))
    {
      assert rows[..i + 1][..i] == rows[..i];
      if BestAfter(rows[..i]).Some? {
        CanonicalOnce(rows[BestAfter(rows[..i]).value]);
      }
      var saved := manager.MaybeSaveBest(i, rows[i]);
    }
    assert rows[..|rows|] == rows;
  }

  /** Rows the two sides agree to use, or agree to skip. */
  predicate Comparable(m: Metrics) { Plain(m) || !m.success.Number? }

  /** The checkpoint kept along the way is the row the plotter picks afterwards, or neither has one. */
  ghost predicate Agrees(rows: seq<Metrics>) {
    match BestAfter(rows)
    case None => NoCandidate(rows, |rows|)
    case Some(best) => EarliestMinimum(rows, best, |rows|)
  }

  /** On rows both sides use alike, or both skip, the choices agree. */
  lemma {:induction false} KeptIsPicked(rows: seq<Metrics>)
    requires forall i | 0 <= i < |rows| :: Comparable(rows[i])
    ensures Agrees(rows)
  {
    if rows != [] {
      var n := |rows| - 1;
      var init := rows[..n];
      KeptIsPicked(init);
      var before := BestAfter(init);
      if before.Some? {
        assert EarliestMinimum(init, before.value, n);
        assert EarliestMinimum(rows, before.value, n);
      }
      if rows[n].success.Number? && before.Some? {
        PlainRowsOrderedAlike(rows[n], rows[before.value]);
        if ManagerPrefers(rows[n], rows[before.value]) {
          NewMinimum(rows, before.value, n);
        }
      }
    }
  }

  /** A list of r and plain rows. */
  ghost predicate PlainBut(rows: seq<Metrics>, r: Metrics) { forall i | 0 <= i < |rows| :: rows[i] == r || Plain(rows[i]) }

  /**
   The kept row is the picked one on every list of plain rows and this one
   exactly when this one is plain too, or has no success rate at all.
   */
  lemma KeptIsPickedIff(r: Metrics)
    ensures Comparable(r) <==> forall rows | PlainBut(rows, r) :: Agrees(rows)
  {
    if Comparable(r) {
      forall rows | PlainBut(rows, r) ensures Agrees(rows) {
        KeptIsPicked(rows);
      }
    } else if Validated(r).None? {
      assert [r][..0] == [] && [r][0] == r;
      assert PlainBut([r], r) && !Agrees([r]);
    } else {
      OrderedAlikeIff(r);
      var q :| Plain(q) && !((ManagerPrefers(r, q) <==> PlotterPrefers(r, q)) && (ManagerPrefers(q, r) <==> PlotterPrefers(q, r)));
      TwoRows(q, r);
      TwoRows(r, q);
      assert PlainBut([q, r], r) && PlainBut([r, q], r);
    }
  }

  /** On two valid rows the choices agree exactly when the two rules do. */
  lemma TwoRows(a: Metrics, b: Metrics)
    requires Validated(a).Some? && Validated(b).Some?
    ensures Agrees([a, b]) <==> (ManagerPrefers(b, a) <==> PlotterPrefers(b, a))
  {
    var rows := [a, b];
    assert rows[..1] == [a] && [a][..0] == [];
    assert BestAfter([a]) == Some(0);
    LexOrder(PlotKey(a), PlotKey(b), PlotKey(a));
    assert rows[0] == a && rows[1] == b;
  }

  /** Two rows with a common success rate on which the two rules disagree: a time of 1e300, and an old-style key. */
  lemma DisagreementsExist()
    ensures var late := Metrics(Number(0.5), Absent, Absent, Absent, Number(2.0e300), Absent, Absent);
      var untimed := Metrics(Number(0.5), Absent, Absent, Absent, Absent, Absent, Absent);
      BestAfter([late, untimed]) == Some(1) && EarliestMinimum([late, untimed], 0, 2)
    ensures var legacy := Metrics(Number(0.5), Absent, Absent, Absent, Absent, Number(10.0), Absent);
      var slow := Metrics(Number(0.5), Absent, Absent, Absent, Number(20.0), Absent, Absent);
      BestAfter([slow, legacy]) == Some(1) && EarliestMinimum([slow, legacy], 0, 2)
  {
    var late := Metrics(Number(0.5), Absent, Absent, Absent, Number(2.0e300), Absent, Absent);
    var untimed := Metrics(Number(0.5), Absent, Absent, Absent, Absent, Absent, Absent);
    Disagree(late, untimed);
    var slow := Metrics(Number(0.5), Absent, Absent, Absent, Number(20.0), Absent, Absent);
    Disagree(slow, Metrics(Number(0.5), Absent, Absent, Absent, Absent, Number(10.0), Absent));
  }

  lemma Disagree(first: Metrics, second: Metrics)
    requires Validated(first).Some? && Validated(second).Some?
    requires first.success == second.success && first.falseLock == second.falseLock
    requires first.collision == second.collision && first.safetyAbort == second.safetyAbort
    requires Validated(second).value.missionTime < Validated(first).value.missionTime
    requires !Below(PlotTime(second), PlotTime(first))
    ensures BestAfter([first, second]) == Some(1) && EarliestMinimum([first, second], 0, 2)
  {
    FiveUnrolled(SelectionKey(Validated(second).value), SelectionKey(Validated(first).value));
    FiveUnrolled(PlotKey(second), PlotKey(first));
    assert [first, second][..1] == [first] && [first][..0] == [];
    assert BestAfter([first]) == Some(0);
  }
}
