/**
 * The smooth policy against its history: what the reports so far make the size do, when it acts and when it
 * does not.
 */
module SmoothHistory {
  import opened Prelude
  import opened SizeLadder
  import opened Governor
  import opened SmoothGovernor

  // ---- said of the reports ----

  /** At rung `at` the report calls for a smaller size, or, with `up`, allows a larger one. */
  predicate Pushes(s: Session, up: bool, at: nat, r: Report)
    requires at < |s.ladder|
  {
    if up then FitsAt(s, at, r.kbps, STAY_MARGIN) && at > 0 && !r.congested && FitsAt(s, at - 1, r.kbps, 1.0)
    else !FitsAt(s, at, r.kbps, STAY_MARGIN)
  }

  /** A governor of the smooth policy with nothing pressing and no change behind it, and reports in order. */
  predicate Begins(s: Session, g0: Governor, rs: seq<Report>) {
    Smoothly(s, g0) && g0.pressure.None? && g0.lastChange.None? && Ordered(rs)
  }

  /** The rung before report `k`. */
  function RungAt(s: Session, g0: Governor, rs: seq<Report>, k: nat): (at: nat)
    requires GovernorOk(s, g0) && k <= |rs|
    ensures at < |s.ladder|
  {
    Run(s, g0, rs[..k]).current
  }

  /** Reports `p .. n` all push one way at rung `at`, which was held from before the first to after the last. */
  ghost predicate Held(s: Session, g0: Governor, rs: seq<Report>, up: bool, at: nat, p: nat, n: nat)
    requires GovernorOk(s, g0) && n <= |rs| && at < |s.ladder|
  {
    && p <= n
    && (forall k: nat :: p <= k <= n ==> RungAt(s, g0, rs, k) == at)
    && forall k: nat :: p <= k < n ==> Pushes(s, up, at, rs[k])
  }

  /** Up to the last report, for at least `d`, reports have pushed one way at the rung held. */
  ghost predicate Long(s: Session, g0: Governor, rs: seq<Report>, up: bool, d: nat)
    requires GovernorOk(s, g0) && rs != []
  {
    var n := |rs| - 1;
    var at := RungAt(s, g0, rs, n);
    Pushes(s, up, at, rs[n]) && exists p: nat :: Held(s, g0, rs, up, at, p, n) && rs[n].now >= rs[p].now + d
  }

  /** Less than `MIN_CHANGE_GAP` after the last size change. */
  predicate TooSoon(log: seq<Change>, now: nat) {
    log != [] && now < log[|log| - 1].at + MIN_CHANGE_GAP
  }

  /** What the last report of `rs` does to the size. */
  ghost function Verdict(s: Session, g0: Governor, rs: seq<Report>): Option<nat>
    requires GovernorOk(s, g0) && rs != []
  {
    var n := |rs| - 1;
    var at := RungAt(s, g0, rs, n);
    if TooSoon(Changes(s, g0, rs[..n]), rs[n].now) then None
    else if Long(s, g0, rs, false, DOWN_AFTER) then
      if at == |s.ladder| - 1 then None else Some(RungBelow(s, at, rs[n].kbps))
    else if Long(s, g0, rs, true, UP_AFTER) then Some(at - 1)
    else None
  }

  // ---- what the pressure remembers ----

  lemma {:induction false} HeldPrefix(s: Session, g0: Governor, rs: seq<Report>, m: nat, up: bool, at: nat,
                                      p: nat, n: nat)
    requires GovernorOk(s, g0) && n <= m <= |rs| && at < |s.ladder|
    ensures Held(s, g0, rs[..m], up, at, p, n) <==> Held(s, g0, rs, up, at, p, n)
  {
    forall k: nat | k <= n ensures RungAt(s, g0, rs[..m], k) == RungAt(s, g0, rs, k) {
      assert rs[..m][..k] == rs[..k];
    }
    forall k: nat | k < n ensures rs[..m][k] == rs[k] {
    }
  }

  /** The pressure of kind `up` that the governor keeps, since `t`. */
  predicate Keeps(g: Governor, up: bool, t: nat) {
    g.pressure == Some(if up then Up(t) else Down(t))
  }

  /** One report: pressure of its own kind lasts, or starts now, unless the size changes. */
  lemma {:induction false} PressureStep(s: Session, g: Governor, r: Report, up: bool, t: nat)
    requires Smoothly(s, g)
    ensures var u := Update(s, g, r);
            && (Keeps(u, up, t) ==> u.current == g.current && Pushes(s, up, g.current, r)
                                    && (Keeps(g, up, t) || t == r.now))
            && (Pushes(s, up, g.current, r) && u.current == g.current && (up || g.current < |s.ladder| - 1) ==>
                  if Keeps(g, up, t) then Keeps(u, up, t)
                  else (exists x: nat :: Keeps(g, up, x)) || Keeps(u, up, r.now))
  {
    if g.pressure.Some? { assert Keeps(g, g.pressure.value.Up?, g.pressure.value.since); }
  }

  lemma {:induction false} RunStep(s: Session, g0: Governor, rs: seq<Report>)
    requires GovernorOk(s, g0) && rs != []
    ensures Run(s, g0, rs) == Update(s, Run(s, g0, rs[..|rs| - 1]), rs[|rs| - 1])
    ensures RungAt(s, g0, rs, |rs| - 1) == Run(s, g0, rs[..|rs| - 1]).current
    ensures RungAt(s, g0, rs, |rs|) == Run(s, g0, rs).current
  {
    assert rs[..|rs|] == rs;
  }

  /** Pressure was kept since some report from which on all pushed that way, at the rung held since. */
  lemma {:induction false} PressureIsHeld(s: Session, g0: Governor, rs: seq<Report>, up: bool, t: nat) returns (p: nat)
    requires Begins(s, g0, rs) && Keeps(Run(s, g0, rs), up, t)
    ensures p < |rs| && rs[p].now == t && Held(s, g0, rs, up, Run(s, g0, rs).current, p, |rs|)
  {
    var n := |rs| - 1;
    RunStep(s, g0, rs);
    var g := Run(s, g0, rs[..n]);
    PressureStep(s, g, rs[n], up, t);
    if Keeps(g, up, t) {
      p := PressureIsHeld(s, g0, rs[..n], up, t);
      HeldPrefix(s, g0, rs, n, up, g.current, p, n);
    } else {
      p := n;
    }
  }

  /** And while reports push that way at the rung held, pressure is kept since the first of them or before. */
  lemma {:induction false} HeldIsPressure(s: Session, g0: Governor, rs: seq<Report>, up: bool, q: nat) returns (t: nat)
    requires Begins(s, g0, rs) && q < |rs| && Held(s, g0, rs, up, Run(s, g0, rs).current, q, |rs|)
    requires up || Run(s, g0, rs).current < |s.ladder| - 1
    ensures Keeps(Run(s, g0, rs), up, t) && t <= rs[q].now
  {
    var n := |rs| - 1;
    RunStep(s, g0, rs);
    var g := Run(s, g0, rs[..n]);
    var at := Run(s, g0, rs).current;
    assert g.current == RungAt(s, g0, rs, n) == at;
    if q < n {
      HeldPrefix(s, g0, rs, n, up, at, q, n);
      t := HeldIsPressure(s, g0, rs[..n], up, q);
    } else if x: nat :| Keeps(g, up, x) {
      var p := PressureIsHeld(s, g0, rs[..n], up, x);
      t := x;
    } else {
      t := rs[n].now;
    }
    PressureStep(s, g, rs[n], up, t);
  }

  // ---- the policy ----

  lemma {:induction false} SpacedIff(s: Session, g0: Governor, rs: seq<Report>)
    requires Begins(s, g0, rs) && rs != []
    ensures MayChange(Run(s, g0, rs[..|rs| - 1]), rs[|rs| - 1].now)
            <==> !TooSoon(Changes(s, g0, rs[..|rs| - 1]), rs[|rs| - 1].now)
  {
    ChangesChain(s, g0, rs[..|rs| - 1]);
  }

  /** Pressing that way for at least `d` by the next report. */
  predicate Pressing(s: Session, g: Governor, r: Report, up: bool, d: nat)
    requires Smoothly(s, g)
  {
    var p := BitratePressure(s, g, r);
    p.Some? && p.value.Up? == up && Since(r.now, p.value.since) >= d
  }

  lemma {:induction false} PressingIs(s: Session, g: Governor, r: Report, up: bool, d: nat)
    requires Smoothly(s, g) && d > 0
    ensures Pressing(s, g, r, up, d)
            <==> Pushes(s, up, g.current, r) && g.pressure.Some? && g.pressure.value.Up? == up
                 && r.now >= g.pressure.value.since + d
  {
  }

  lemma {:induction false} HeldOn(s: Session, g0: Governor, rs: seq<Report>, up: bool, at: nat, p: nat, n: nat)
    requires GovernorOk(s, g0) && n < |rs| && at < |s.ladder|
    ensures Held(s, g0, rs[..n], up, at, p, n) <==> Held(s, g0, rs, up, at, p, n)
  {
    HeldPrefix(s, g0, rs, n, up, at, p, n);
  }

  /** The governor presses so exactly when the reports have. */
  lemma {:induction false} PressingIff(s: Session, g0: Governor, rs: seq<Report>, up: bool, d: nat)
    requires Begins(s, g0, rs) && rs != [] && d > 0
    requires up || Run(s, g0, rs[..|rs| - 1]).current < |s.ladder| - 1
    ensures Pressing(s, Run(s, g0, rs[..|rs| - 1]), rs[|rs| - 1], up, d) <==> Long(s, g0, rs, up, d)
  {
    var n := |rs| - 1;
    var before := rs[..n];
    var g := Run(s, g0, before);
    RunStep(s, g0, rs);
    PressingIs(s, g, rs[n], up, d);
    if Pressing(s, g, rs[n], up, d) {
      var p := PressureIsHeld(s, g0, before, up, g.pressure.value.since);
      HeldOn(s, g0, rs, up, g.current, p, n);
    }
    if Long(s, g0, rs, up, d) {
      var p: nat :| Held(s, g0, rs, up, g.current, p, n) && rs[n].now >= rs[p].now + d;
      HeldOn(s, g0, rs, up, g.current, p, n);
      var t := HeldIsPressure(s, g0, before, up, p);
    }
  }

  /** What the policy chooses, in terms of the pressure. */
  lemma {:induction false} ChosenIs(s: Session, g: Governor, r: Report)
    requires Smoothly(s, g)
    ensures Chosen(s, g, r).1
            == if !MayChange(g, r.now) then None
               else if g.current < |s.ladder| - 1 && Pressing(s, g, r, false, DOWN_AFTER)
                 then Some(RungBelow(s, g.current, r.kbps))
               else if Pressing(s, g, r, true, UP_AFTER) then Some(g.current - 1)
               else None
  {
  }

  /** The two ways exclude each other. */
  lemma {:induction false} OneWay(s: Session, g0: Governor, rs: seq<Report>)
    requires GovernorOk(s, g0) && rs != []
    ensures !(Long(s, g0, rs, false, DOWN_AFTER) && Long(s, g0, rs, true, UP_AFTER))
  {
  }

  /**
   * The smooth governor does at every report exactly what its history calls for: one step down, straight
   * to a size that fits, once the size held has been too big for `DOWN_AFTER`; one step up once the next
   * has fitted without congestion for `UP_AFTER`; and otherwise nothing.
   */
  lemma {:induction false} SmoothIsItsHistory(s: Session, g0: Governor, rs: seq<Report>)
    requires Begins(s, g0, rs) && rs != []
    ensures Chosen(s, Run(s, g0, rs[..|rs| - 1]), rs[|rs| - 1]).1 == Verdict(s, g0, rs)
  {
    var g := Run(s, g0, rs[..|rs| - 1]);
    RunStep(s, g0, rs);
    SpacedIff(s, g0, rs);
    ChosenIs(s, g, rs[|rs| - 1]);
    OneWay(s, g0, rs);
    if g.current < |s.ladder| - 1 { PressingIff(s, g0, rs, false, DOWN_AFTER); }
    PressingIff(s, g0, rs, true, UP_AFTER);
  }

  // ---- it does step up ----

  /** No size changed while the rung stayed the same. */
  lemma {:induction false} SameRungSameLog(s: Session, g0: Governor, rs: seq<Report>, i: nat, n: nat)
    requires GovernorOk(s, g0) && i <= n <= |rs|
    requires forall k: nat :: i <= k <= n ==> RungAt(s, g0, rs, k) == RungAt(s, g0, rs, i)
    ensures Changes(s, g0, rs[..n]) == Changes(s, g0, rs[..i])
  {
    if i < n {
      SameRungSameLog(s, g0, rs, i, n - 1);
      assert rs[..n][..n - 1] == rs[..n - 1];
      Unfolded(s, g0, rs[..n]);
      assert RungAt(s, g0, rs, n) == RungAt(s, g0, rs, n - 1);
    }
  }

  /** So after `UP_AFTER` at one rung it is not too soon for a change. */
  lemma {:induction false} SoonEnough(s: Session, g0: Governor, rs: seq<Report>, i: nat, n: nat)
    requires Begins(s, g0, rs) && i <= n < |rs| && rs[n].now >= rs[i].now + UP_AFTER
    requires forall k: nat :: i <= k <= n ==> RungAt(s, g0, rs, k) == RungAt(s, g0, rs, i)
    ensures !TooSoon(Changes(s, g0, rs[..n]), rs[n].now)
  {
    SameRungSameLog(s, g0, rs, i, n);
    var log := Changes(s, g0, rs[..i]);
    if log != [] { ChangesPast(s, g0, rs[..i], |log| - 1); }
  }

  lemma {:induction false} NotTooBig(s: Session, g0: Governor, rs: seq<Report>)
    requires GovernorOk(s, g0) && rs != [] && Pushes(s, true, RungAt(s, g0, rs, |rs| - 1), rs[|rs| - 1])
    ensures !Long(s, g0, rs, false, DOWN_AFTER)
  {
  }

  lemma {:induction false} RoomIsLong(s: Session, g0: Governor, rs: seq<Report>, i: nat, at: nat)
    requires GovernorOk(s, g0) && i < |rs| && at < |s.ladder| && rs[|rs| - 1].now >= rs[i].now + UP_AFTER
    requires forall k: nat :: i <= k <= |rs| - 1 ==> RungAt(s, g0, rs, k) == at
    requires forall k: nat :: i <= k <= |rs| - 1 ==> Pushes(s, true, at, rs[k])
    ensures Long(s, g0, rs, true, UP_AFTER)
  {
    assert Held(s, g0, rs, true, at, i, |rs| - 1);
  }

  lemma {:induction false} VerdictUp(s: Session, g0: Governor, rs: seq<Report>)
    requires GovernorOk(s, g0) && rs != [] && Long(s, g0, rs, true, UP_AFTER)
    requires !TooSoon(Changes(s, g0, rs[..|rs| - 1]), rs[|rs| - 1].now)
    ensures Verdict(s, g0, rs) == Some(RungAt(s, g0, rs, |rs| - 1) - 1)
  {
    NotTooBig(s, g0, rs);
  }

  /** Whatever the gaps between reports: `UP_AFTER` of room at a size that has not changed brings the step up. */
  lemma {:induction false} RoomBringsStep(s: Session, g0: Governor, rs: seq<Report>, i: nat)
    requires Begins(s, g0, rs) && i < |rs| && rs[|rs| - 1].now >= rs[i].now + UP_AFTER
    requires var (n, at) := (|rs| - 1, RungAt(s, g0, rs, i));
             && (forall k: nat :: i <= k <= n ==> RungAt(s, g0, rs, k) == at)
             && (forall k: nat :: i <= k <= n ==> Pushes(s, true, at, rs[k]))
    ensures Run(s, g0, rs).current == RungAt(s, g0, rs, i) - 1
  {
    var (n, at) := (|rs| - 1, RungAt(s, g0, rs, i));
    SoonEnough(s, g0, rs, i, n);
    RoomIsLong(s, g0, rs, i, at);
    VerdictUp(s, g0, rs);
    RunStep(s, g0, rs);
    SmoothIsItsHistory(s, g0, rs);
  }

  /** From a governor free to change, two reports with room, `UP_AFTER` apart, go exactly one rung up. */
  lemma {:induction false} TwoReportsStepUp(s: Session, g: Governor, a: Report, b: Report)
    requires Smoothly(s, g) && Ready(g, a.now) && b.now == a.now + UP_AFTER
    requires Pushes(s, true, g.current, a) && Pushes(s, true, g.current, b)
    requires !Pressing(s, g, a, true, UP_AFTER)
    ensures var u := Update(s, Update(s, g, a), b);
            u.current == g.current - 1 && u.pressure.None? && u.lastChange == Some(b.now)
  {
  }

  /** From report `i` on: one bitrate and no congestion. */
  predicate CalmFrom(rs: seq<Report>, kbps: u32, i: nat) {
    forall k :: i <= k < |rs| ==> rs[k].kbps == kbps && !rs[k].congested
  }

  /** A calm report never brings a smaller size, nor one too big. */
  lemma {:induction false} CalmStep(s: Session, g0: Governor, rs: seq<Report>, kbps: u32, k: nat)
    requires Smoothly(s, g0) && k < |rs| && rs[k].kbps == kbps && !TooBig(s, RungAt(s, g0, rs, k), kbps)
    ensures RungAt(s, g0, rs, k + 1) <= RungAt(s, g0, rs, k) && !TooBig(s, RungAt(s, g0, rs, k + 1), kbps)
  {
    assert rs[..k + 1][..k] == rs[..k];
    var g := Run(s, g0, rs[..k]);
    MovesUp(s, g, rs[k]);
    var next := Chosen(s, g, rs[k]).1;
    if next.Some? { SmallerFits(s, next.value, next.value, kbps, 1.0, STAY_MARGIN); }
  }

  lemma {:induction false} CalmSteps(s: Session, g0: Governor, rs: seq<Report>, kbps: u32, i: nat, k: nat)
    requires Smoothly(s, g0) && i <= k <= |rs| && CalmFrom(rs, kbps, i) && !TooBig(s, RungAt(s, g0, rs, i), kbps)
    ensures RungAt(s, g0, rs, k) <= RungAt(s, g0, rs, i) && !TooBig(s, RungAt(s, g0, rs, k), kbps)
    decreases k
  {
    if i < k {
      CalmSteps(s, g0, rs, kbps, i, k - 1);
      CalmStep(s, g0, rs, kbps, k - 1);
    }
  }

  /** Calm for `UP_AFTER` with room above, the size grows. */
  lemma {:induction false} CalmGrows(s: Session, g0: Governor, rs: seq<Report>, kbps: u32, i: nat, n: nat)
    requires Begins(s, g0, rs) && i <= n < |rs| && CalmFrom(rs, kbps, i) && rs[n].now >= rs[i].now + UP_AFTER
    requires var at := RungAt(s, g0, rs, i); !TooBig(s, at, kbps) && !NoRoom(s, at, kbps)
    ensures RungAt(s, g0, rs, n + 1) < RungAt(s, g0, rs, i)
  {
    var at := RungAt(s, g0, rs, i);
    if k: nat :| i <= k <= n && RungAt(s, g0, rs, k) != at {
      CalmSteps(s, g0, rs, kbps, i, k);
      CalmSteps(s, g0, rs, kbps, k, n + 1);
    } else {
      var front := rs[..n + 1];
      forall k: nat | k <= n ensures RungAt(s, g0, front, k) == RungAt(s, g0, rs, k) {
        assert front[..k] == rs[..k];
      }
      assert forall k: nat :: i <= k <= n ==> Pushes(s, true, at, front[k]);
      RoomBringsStep(s, g0, front, i);
    }
  }

  /** Spans of reports from `i` on, each `UP_AFTER` long or longer, one after another, that end at these. */
  predicate Spans(rs: seq<Report>, i: nat, ends: seq<nat>)
    decreases |ends|
  {
    ends != [] ==>
      && i <= ends[0] < |rs| && rs[ends[0]].now >= rs[i].now + UP_AFTER
      && Spans(rs, ends[0] + 1, ends[1..])
  }

  /** A size with no room above is kept. */
  lemma {:induction false} NoRoomStays(s: Session, g0: Governor, rs: seq<Report>, kbps: u32, i: nat, k: nat)
    requires Smoothly(s, g0) && i <= k <= |rs| && CalmFrom(rs, kbps, i)
    requires !TooBig(s, RungAt(s, g0, rs, i), kbps) && NoRoom(s, RungAt(s, g0, rs, i), kbps)
    ensures RungAt(s, g0, rs, k) == RungAt(s, g0, rs, i)
    decreases k
  {
    if i < k {
      NoRoomStays(s, g0, rs, kbps, i, k - 1);
      assert rs[..k][..k - 1] == rs[..k - 1];
      MovesUp(s, Run(s, g0, rs[..k - 1]), rs[k - 1]);
    }
  }

  /**
   * A calm, steady bitrate grows the picture until nothing larger fits: as many spans of `UP_AFTER` as
   * there are rungs above are enough, whatever the gaps between reports and whatever went before them.
   */
  lemma {:induction false} CalmClimbs(s: Session, g0: Governor, rs: seq<Report>, kbps: u32, i: nat, ends: seq<nat>)
    requires Begins(s, g0, rs) && i <= |rs| && CalmFrom(rs, kbps, i) && Spans(rs, i, ends)
    requires !TooBig(s, RungAt(s, g0, rs, i), kbps) && RungAt(s, g0, rs, i) <= |ends|
    ensures NoRoom(s, Run(s, g0, rs).current, kbps)
    decreases |ends|
  {
    assert rs[..|rs|] == rs;
    if NoRoom(s, RungAt(s, g0, rs, i), kbps) {
      NoRoomStays(s, g0, rs, kbps, i, |rs|);
    } else {
      var n := ends[0];
      CalmGrows(s, g0, rs, kbps, i, n);
      CalmSteps(s, g0, rs, kbps, i, n + 1);
      CalmClimbs(s, g0, rs, kbps, n + 1, ends[1..]);
    }
  }
}
