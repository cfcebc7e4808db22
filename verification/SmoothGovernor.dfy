/**
 * The smooth policy on a steady bitrate, from whatever went before: the size never turns back, and it
 * steps down at most once exactly when the first step lands on a size the bitrate keeps.
 */
module SmoothGovernor {
  import opened Prelude
  import opened SizeLadder
  import opened Governor

  predicate Steady(rs: seq<Report>, kbps: u32) {
    forall i :: 0 <= i < |rs| ==> rs[i].kbps == kbps
  }

  /** A governor under the smooth policy, in any state. */
  predicate Smoothly(s: Session, g: Governor) {
    GovernorOk(s, g) && s.policy == Smooth
  }

  lemma {:induction false} SmallerFits(s: Session, i: nat, j: nat, kbps: u32, m: real, n: real)
    requires SessionOk(s) && i < |s.ladder| && j < |s.ladder| && Pixels(s.ladder[j]) <= Pixels(s.ladder[i])
    requires 0.0 <= n <= m && FitsAt(s, i, kbps, m)
    ensures FitsAt(s, j, kbps, n)
  {
    assert s.ladder[j] in s.ladder;
    FitsIsMonotone(s.ladder[i], s.ladder[j], s.fps, s.h264, kbps, kbps, m, n);
  }

  // ---- one report ----

  /** Nothing at this bitrate calls for a larger size. */
  predicate NoRoom(s: Session, current: nat, kbps: u32)
    requires current < |s.ladder|
  {
    current > 0 ==> !FitsAt(s, current - 1, kbps, 1.0)
  }

  /** Without room to grow, the only move is the one step down from a size that is too big. */
  lemma {:induction false} MovesDown(s: Session, g: Governor, r: Report)
    requires Smoothly(s, g) && NoRoom(s, g.current, r.kbps)
    ensures var next := Chosen(s, g, r).1;
            next.Some? ==> TooBig(s, g.current, r.kbps) && next.value == RungBelow(s, g.current, r.kbps)
  {
  }

  lemma {:induction false} TooBigMoves(s: Session, g: Governor, r: Report)
    requires Smoothly(s, g) && TooBig(s, g.current, r.kbps)
    ensures var next := Chosen(s, g, r).1;
            next.Some? ==> next.value == RungBelow(s, g.current, r.kbps)
  {
  }

  lemma {:induction false} MovesUp(s: Session, g: Governor, r: Report)
    requires Smoothly(s, g) && !TooBig(s, g.current, r.kbps)
    ensures var next := Chosen(s, g, r).1;
            next.Some? ==> next.value == g.current - 1 && FitsAt(s, next.value, r.kbps, 1.0)
  {
  }

  /** The step down from a size that is too big lands where nothing calls for a larger one. */
  lemma {:induction false} StepDownLeavesNoRoom(s: Session, current: nat, kbps: u32)
    requires SessionOk(s) && current < |s.ladder| && TooBig(s, current, kbps)
    ensures NoRoom(s, RungBelow(s, current, kbps), kbps) || RungBelow(s, current, kbps) == current
  {
    if FitsAt(s, current, kbps, 1.0) { SmallerFits(s, current, current, kbps, 1.0, STAY_MARGIN); }
  }

  lemma {:induction false} Unfolded(s: Session, g0: Governor, rs: seq<Report>)
    requires GovernorOk(s, g0) && rs != []
    ensures var (n, g) := (|rs| - 1, Run(s, g0, rs[..|rs| - 1]));
            var next := Chosen(s, g, rs[n]).1;
            && Run(s, g0, rs).current == (if next.None? then g.current else next.value)
            && Changes(s, g0, rs) == (if next.None? then Changes(s, g0, rs[..n])
                                      else Changes(s, g0, rs[..n]) + [Change(rs[n].now, g.current, next.value)])
  {
  }

  // ---- it never turns back ----

  predicate AllDown(log: seq<Change>) { forall c :: c in log ==> c.to > c.from }

  predicate NoneDown(log: seq<Change>) { forall c :: c in log ==> c.to <= c.from }

  /** One rung up, to a size that fits outright. */
  predicate Climbs(s: Session, c: Change, kbps: u32) {
    c.to < |s.ladder| && c.to == c.from - 1 && FitsAt(s, c.to, kbps, 1.0)
  }

  /** From a size it can keep: it only ever climbs. */
  lemma {:induction false} OnlyClimbs(s: Session, g0: Governor, rs: seq<Report>, kbps: u32)
    requires Smoothly(s, g0) && Steady(rs, kbps) && !TooBig(s, g0.current, kbps)
    ensures var (log, now) := (Changes(s, g0, rs), Run(s, g0, rs).current);
            && |log| == g0.current - now && !TooBig(s, now, kbps)
            && forall c :: c in log ==> Climbs(s, c, kbps)
  {
    if rs == [] {
    } else {
      var n := |rs| - 1;
      OnlyClimbs(s, g0, rs[..n], kbps);
      Unfolded(s, g0, rs);
      var g := Run(s, g0, rs[..n]);
      MovesUp(s, g, rs[n]);
      var next := Chosen(s, g, rs[n]).1;
      if next.Some? { SmallerFits(s, next.value, next.value, kbps, 1.0, STAY_MARGIN); }
    }
  }

  /** A step down from a size that is too big, to the largest size below it that fits outright, or the next. */
  predicate Drops(s: Session, c: Change, kbps: u32) {
    c.from < c.to < |s.ladder| && TooBig(s, c.from, kbps) && c.to == RungBelow(s, c.from, kbps)
  }

  /** From a size too big for the bitrate: it only ever steps down. */
  lemma {:induction false} OnlyDrops(s: Session, g0: Governor, rs: seq<Report>, kbps: u32)
    requires Smoothly(s, g0) && Steady(rs, kbps) && TooBig(s, g0.current, kbps)
    ensures var (log, now) := (Changes(s, g0, rs), Run(s, g0, rs).current);
            && |log| <= now - g0.current
            && (if log == [] then now == g0.current else NoRoom(s, now, kbps))
            && forall c :: c in log ==> Drops(s, c, kbps)
  {
    if rs == [] {
    } else {
      var n := |rs| - 1;
      OnlyDrops(s, g0, rs[..n], kbps);
      Unfolded(s, g0, rs);
      var g := Run(s, g0, rs[..n]);
      if Changes(s, g0, rs[..n]) == [] {
        TooBigMoves(s, g, rs[n]);
        StepDownLeavesNoRoom(s, g0.current, kbps);
      } else {
        MovesDown(s, g, rs[n]);
        if TooBig(s, g.current, kbps) { StepDownLeavesNoRoom(s, g.current, kbps); }
      }
    }
  }

  /**
   * While the bitrate holds steady, with congestion coming and going as it may, size changes never
   * reverse: all go down, or all go up, and there are fewer of them than rungs. This holds of every
   * ladder, and from every state an earlier part of the session may have left.
   */
  lemma {:induction false} NeverReverses(s: Session, g0: Governor, rs: seq<Report>, kbps: u32)
    requires Smoothly(s, g0) && Steady(rs, kbps)
    ensures var log := Changes(s, g0, rs);
            && |log| < |s.ladder|
            && if TooBig(s, g0.current, kbps) then AllDown(log) else NoneDown(log)
  {
    var log := Changes(s, g0, rs);
    if TooBig(s, g0.current, kbps) {
      OnlyDrops(s, g0, rs, kbps);
      assert forall c :: c in log ==> Drops(s, c, kbps);
    } else {
      OnlyClimbs(s, g0, rs, kbps);
      assert forall c :: c in log ==> Climbs(s, c, kbps);
    }
  }

  // ---- when one step down is enough ----

  /** The step down lands on a size the bitrate keeps, or on the last one. */
  predicate LandsAtOnce(s: Session, current: nat, kbps: u32)
    requires current < |s.ladder|
  {
    var t := RungBelow(s, current, kbps);
    TooBig(s, t, kbps) ==> t == |s.ladder| - 1
  }

  /** Then there is one change at the most. */
  lemma {:induction false} DownAtMostOnce(s: Session, g0: Governor, rs: seq<Report>, kbps: u32)
    requires Smoothly(s, g0) && Steady(rs, kbps) && TooBig(s, g0.current, kbps) && LandsAtOnce(s, g0.current, kbps)
    ensures var (log, now) := (Changes(s, g0, rs), Run(s, g0, rs).current);
            || (log == [] && now == g0.current)
            || (|log| == 1 && log[0].from == g0.current < log[0].to == now == RungBelow(s, g0.current, kbps))
  {
    if rs == [] {
    } else {
      var n := |rs| - 1;
      DownAtMostOnce(s, g0, rs[..n], kbps);
      OnlyDrops(s, g0, rs[..n], kbps);
      Unfolded(s, g0, rs);
      var g := Run(s, g0, rs[..n]);
      if Changes(s, g0, rs[..n]) == [] {
        TooBigMoves(s, g, rs[n]);
      } else {
        MovesDown(s, g, rs[n]);
      }
    }
  }

  /** Free to change at `now`, and nothing it keeps is later. */
  predicate Ready(g: Governor, now: nat) {
    MayChange(g, now) && (g.pressure.Some? ==> g.pressure.value.since <= now)
  }

  /** Two reports a pause apart take a governor that may change, on a size too big, exactly one step down. */
  lemma {:induction false} TwoReportsOneStep(s: Session, g: Governor, a: Report, b: Report)
    requires Smoothly(s, g) && TooBig(s, g.current, a.kbps) && g.current < |s.ladder| - 1
    requires b.kbps == a.kbps && b.now == a.now + DOWN_AFTER && Ready(g, a.now)
    ensures var u := Update(s, Update(s, g, a), b);
            u.current == RungBelow(s, g.current, a.kbps) && Ready(u, b.now + MIN_CHANGE_GAP)
  {
    var h := Update(s, g, a);
    if h.current == g.current {
      assert h.pressure.Some? && h.pressure.value.Down? && Since(b.now, h.pressure.value.since) >= DOWN_AFTER;
      assert MayChange(h, b.now);
    }
  }

  /** Reports of one bitrate, `DOWN_AFTER` or a change gap apart. */
  function FourReports(kbps: u32, t: nat): seq<Report> {
    [Report(kbps, true, t), Report(kbps, true, t + DOWN_AFTER),
     Report(kbps, true, t + DOWN_AFTER + MIN_CHANGE_GAP), Report(kbps, true, t + 2 * DOWN_AFTER + MIN_CHANGE_GAP)]
  }

  lemma {:induction false} FourUpdates(s: Session, g0: Governor, rs: seq<Report>)
    requires GovernorOk(s, g0) && |rs| == 4
    ensures Run(s, g0, rs) == Update(s, Update(s, Update(s, Update(s, g0, rs[0]), rs[1]), rs[2]), rs[3])
  {
    assert rs == [] + [rs[0]] + [rs[1]] + [rs[2]] + [rs[3]];
    Extends(s, g0, [], rs[0]);
    Extends(s, g0, [] + [rs[0]], rs[1]);
    Extends(s, g0, [] + [rs[0]] + [rs[1]], rs[2]);
    Extends(s, g0, [] + [rs[0]] + [rs[1]] + [rs[2]], rs[3]);
  }

  /** Otherwise four congested reports take it down twice. */
  lemma {:induction false} StepsDownTwice(s: Session, g0: Governor, kbps: u32, t: nat)
    requires Smoothly(s, g0) && TooBig(s, g0.current, kbps) && !LandsAtOnce(s, g0.current, kbps) && Ready(g0, t)
    ensures |Changes(s, g0, FourReports(kbps, t))| > 1
  {
    var rs := FourReports(kbps, t);
    var step := RungBelow(s, g0.current, kbps);
    TwoReportsOneStep(s, g0, rs[0], rs[1]);
    var h := Update(s, Update(s, g0, rs[0]), rs[1]);
    TwoReportsOneStep(s, h, rs[2], rs[3]);
    FourUpdates(s, g0, rs);
    ChangesChain(s, g0, rs);
    OnlyDrops(s, g0, rs, kbps);
    var log := Changes(s, g0, rs);
    assert forall c :: c in log ==> Drops(s, c, kbps);
    assert |log| > 0 ==> log[0] in log;
  }

  /**
   * Started too big, a steady bitrate brings at most one change, whatever else the reports say, if and
   * only if the step down lands on a size the bitrate keeps.
   */
  lemma {:induction false} DownOnceIff(s: Session, g0: Governor, kbps: u32)
    requires Smoothly(s, g0) && TooBig(s, g0.current, kbps)
    ensures (forall rs :: Steady(rs, kbps) && Ordered(rs) ==> |Changes(s, g0, rs)| <= 1)
            <==> LandsAtOnce(s, g0.current, kbps)
  {
    if LandsAtOnce(s, g0.current, kbps) {
      forall rs | Steady(rs, kbps) && Ordered(rs)
        ensures |Changes(s, g0, rs)| <= 1
      {
        DownAtMostOnce(s, g0, rs, kbps);
      }
    } else {
      var since := if g0.pressure.Some? then g0.pressure.value.since else 0;
      var t := GetOr(g0.lastChange, 0) + MIN_CHANGE_GAP + since;
      StepsDownTwice(s, g0, kbps, t);
      assert Steady(FourReports(kbps, t), kbps) && Ordered(FourReports(kbps, t));
    }
  }

  // ---- sizes it lands from ----

  /** Smaller than every rung above it, or the last. */
  predicate Startable(s: Session, current: nat) {
    && current < |s.ladder|
    && (current == |s.ladder| - 1
        || forall k :: 0 <= k < current ==> Pixels(s.ladder[k]) > Pixels(s.ladder[current]))
  }

  /** Any rung a session starts on is one of those, whatever the ladder. */
  lemma {:induction false} StartIsStartable(s: Session, kbps: u32)
    requires SessionOk(s)
    ensures Startable(s, StartRung(s, kbps))
  {
    var r := StartRung(s, kbps);
    if r < |s.ladder| - 1 {
      forall k: nat | k < r
        ensures Pixels(s.ladder[k]) > Pixels(s.ladder[r])
      {
        if Pixels(s.ladder[k]) <= Pixels(s.ladder[r]) { SmallerFits(s, r, k, kbps, STAY_MARGIN, STAY_MARGIN); }
      }
    }
  }

  /** From such a rung the step down goes to the largest size of all that fits outright, and stays there. */
  lemma {:induction false} StartableLands(s: Session, current: nat, kbps: u32)
    requires SessionOk(s) && Startable(s, current) && TooBig(s, current, kbps)
    ensures LandsAtOnce(s, current, kbps)
    ensures current < |s.ladder| - 1 ==> RungBelow(s, current, kbps) == LargestFitting(s, kbps, 1.0)
  {
    var home := LargestFitting(s, kbps, 1.0);
    if FitsAt(s, home, kbps, 1.0) {
      SmallerFits(s, home, home, kbps, 1.0, STAY_MARGIN);
      if current < |s.ladder| - 1 && home <= current { SmallerFits(s, home, current, kbps, 1.0, STAY_MARGIN); }
    }
  }

  /** So where the sizes come largest first, or from a rung a session starts on, at most one change is downward. */
  lemma {:induction false} NeverFlaps(s: Session, g0: Governor, rs: seq<Report>, kbps: u32)
    requires Smoothly(s, g0) && Steady(rs, kbps)
    requires LargestFirst(s.ladder) || Startable(s, g0.current)
    ensures var log := Changes(s, g0, rs);
            && |log| < |s.ladder|
            && (|log| <= 1 || NoneDown(log))
  {
    NeverReverses(s, g0, rs, kbps);
    if TooBig(s, g0.current, kbps) {
      StartableLands(s, g0.current, kbps);
      DownAtMostOnce(s, g0, rs, kbps);
    }
  }

  // ---- within a longer session ----

  lemma {:induction false} Regrouped<T>(a: seq<T>, b: seq<T>)
    requires b != []
    ensures (a + b)[..|a + b| - 1] == a + b[..|b| - 1] && (a + b)[|a + b| - 1] == b[|b| - 1]
  {
  }

  lemma {:induction false} Shifted<T>(a: seq<T>, b: seq<T>, c: seq<T>)
    ensures a + b + c == a + (b + c)
  {
  }

  lemma {:induction false} RunsOn(s: Session, g0: Governor, before: seq<Report>, rs: seq<Report>)
    requires GovernorOk(s, g0)
    ensures Run(s, g0, before + rs) == Run(s, Run(s, g0, before), rs)
  {
    if rs == [] {
      assert before + rs == before;
    } else {
      Regrouped(before, rs);
      RunsOn(s, g0, before, rs[..|rs| - 1]);
    }
  }

  /** What one report adds to the record of changes. */
  function Added(s: Session, g: Governor, r: Report): seq<Change>
    requires GovernorOk(s, g)
  {
    var next := Chosen(s, g, r).1;
    if next.None? then [] else [Change(r.now, g.current, next.value)]
  }

  lemma {:induction false} ChangesGrow(s: Session, g0: Governor, rs: seq<Report>)
    requires GovernorOk(s, g0) && rs != []
    ensures Changes(s, g0, rs)
            == Changes(s, g0, rs[..|rs| - 1]) + Added(s, Run(s, g0, rs[..|rs| - 1]), rs[|rs| - 1])
  {
  }

  lemma {:induction false} ChangesGoOn(s: Session, g0: Governor, before: seq<Report>, rs: seq<Report>)
    requires GovernorOk(s, g0)
    ensures Changes(s, g0, before + rs) == Changes(s, g0, before) + Changes(s, Run(s, g0, before), rs)
  {
    if rs == [] {
      assert before + rs == before;
    } else {
      var (g, n) := (Run(s, g0, before), |rs| - 1);
      Regrouped(before, rs);
      RunsOn(s, g0, before, rs[..n]);
      ChangesGoOn(s, g0, before, rs[..n]);
      ChangesGrow(s, g0, before + rs);
      ChangesGrow(s, g, rs);
      Shifted(Changes(s, g0, before), Changes(s, g, rs[..n]), Added(s, Run(s, g, rs[..n]), rs[n]));
    }
  }

  lemma {:induction false} Tail<T>(a: seq<T>, b: seq<T>)
    ensures a <= a + b && (a + b)[|a|..] == b
  {
  }

  /**
   * A session that has changed size as it may and then sees its bitrate hold steady: from there on the
   * changes do not reverse, and where the sizes come largest first there is at most one down.
   */
  lemma {:induction false} SettlesOnceSteady(s: Session, startKbps: u32, before: seq<Report>, rs: seq<Report>,
                                             kbps: u32)
    requires SessionOk(s) && s.policy == Smooth && Steady(rs, kbps)
    ensures var g0 := Started(StartRung(s, startKbps));
            var (early, all) := (Changes(s, g0, before), Changes(s, g0, before + rs));
            && early <= all && |all[|early|..]| < |s.ladder|
            && (AllDown(all[|early|..]) || NoneDown(all[|early|..]))
            && (LargestFirst(s.ladder) && |all[|early|..]| > 1 ==> NoneDown(all[|early|..]))
  {
    var g0 := Started(StartRung(s, startKbps));
    var g := Run(s, g0, before);
    ChangesGoOn(s, g0, before, rs);
    Tail(Changes(s, g0, before), Changes(s, g, rs));
    NeverReverses(s, g, rs, kbps);
    if LargestFirst(s.ladder) { NeverFlaps(s, g, rs, kbps); }
  }
}
