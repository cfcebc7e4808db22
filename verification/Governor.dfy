/** Moves the encoded picture size with the link: its state, its steps, and the classes that take them. */
module Governor {
  import opened Prelude
  import opened SizeLadder

  // Times and durations are nanoseconds.
  const SECOND := 1_000_000_000
  const DOWN_AFTER := 2 * SECOND
  const UP_AFTER := 8 * SECOND
  const MIN_CHANGE_GAP := 5 * SECOND
  const CALM_GAP := SECOND / 2
  const RETRY_HOLD := 30 * SECOND
  const MAX_UP_AFTER := 64 * SECOND

  datatype Policy = Sharp | Smooth

  datatype Session = Session(ladder: seq<Size>, fps: u32, h264: bool, policy: Policy)

  predicate SessionOk(s: Session) {
    |s.ladder| > 0 && forall size :: size in s.ladder ==> Pixels(size) > 0
  }

  datatype Pressure = Down(since: nat) | Up(since: nat)

  /** What the sharp policy tracks about the link. */
  datatype Link = Link(runStart: Option<nat>, lastCongested: Option<nat>, lastUnstable: Option<nat>,
                       lastReturn: Option<nat>, retryAfter: nat)

  datatype Governor = Governor(current: nat, pressure: Option<Pressure>, lastChange: Option<nat>, link: Link)

  /** One bitrate decision as the governor sees it. */
  datatype Report = Report(kbps: u32, congested: bool, now: nat)

  /** `at` is known, and less than `d` ago. */
  predicate Within(at: Option<nat>, now: nat, d: nat) {
    at.Some? && Since(now, at.value) < d
  }

  // ---- the link ----

  function NewLink(): Link { Link(None, None, None, None, UP_AFTER) }

  predicate Settling(l: Link, now: nat) { Within(l.lastCongested, now, CALM_GAP) }

  predicate Settled(l: Link, now: nat) {
    !Settling(l, now) && !Within(l.lastUnstable, now, l.retryAfter)
  }

  /** The link after one report, and whether it is unstable now. */
  function OnReport(l: Link, congested: bool, now: nat): (Link, bool) {
    if !congested then (l, false)
    else
      var start := if Settling(l, now) then l.runStart else Some(now);
      var unstable := start.Some? && Since(now, start.value) >= DOWN_AFTER;
      (l.(runStart := start, lastCongested := Some(now),
          lastUnstable := if unstable then Some(now) else l.lastUnstable), unstable)
  }

  function OnReturn(l: Link, now: nat): Link { l.(lastReturn := Some(now)) }

  function OnLeave(l: Link, now: nat): Link {
    l.(retryAfter := if Within(l.lastReturn, now, RETRY_HOLD) then Min(l.retryAfter * 2, MAX_UP_AFTER) else UP_AFTER)
  }

  // ---- the rungs ----

  predicate FitsAt(s: Session, i: nat, kbps: u32, margin: real)
    requires i < |s.ladder|
  {
    Fits(s.ladder[i], s.fps, s.h264, kbps, margin)
  }

  /** The first rung at or after `i` that fits, or the last one. */
  function FirstFitting(s: Session, kbps: u32, margin: real, i: nat): (r: nat)
    requires i < |s.ladder|
    ensures i <= r < |s.ladder|
    ensures forall k :: i <= k < r ==> !FitsAt(s, k, kbps, margin)
    ensures FitsAt(s, r, kbps, margin) || r == |s.ladder| - 1
    decreases |s.ladder| - i
  {
    if FitsAt(s, i, kbps, margin) || i == |s.ladder| - 1 then i else FirstFitting(s, kbps, margin, i + 1)
  }

  function LargestFitting(s: Session, kbps: u32, margin: real): nat
    requires |s.ladder| > 0
  {
    FirstFitting(s, kbps, margin, 0)
  }

  function RungBelow(s: Session, current: nat, kbps: u32): (r: nat)
    requires current < |s.ladder|
    ensures current <= r < |s.ladder|
    ensures r == current <==> current == |s.ladder| - 1
  {
    Min(Max(LargestFitting(s, kbps, 1.0), current + 1), |s.ladder| - 1)
  }

  // ---- one report ----

  predicate GovernorOk(s: Session, g: Governor) {
    SessionOk(s) && g.current < |s.ladder|
  }

  predicate TooBig(s: Session, current: nat, kbps: u32)
    requires current < |s.ladder|
  {
    !FitsAt(s, current, kbps, STAY_MARGIN)
  }

  predicate RoomAbove(s: Session, current: nat, r: Report)
    requires current < |s.ladder|
  {
    current > 0 && !r.congested && FitsAt(s, current - 1, r.kbps, 1.0)
  }

  function BitratePressure(s: Session, g: Governor, r: Report): Option<Pressure>
    requires GovernorOk(s, g)
  {
    if TooBig(s, g.current, r.kbps) then
      Some(Down(if g.pressure.Some? && g.pressure.value.Down? then g.pressure.value.since else r.now))
    else if RoomAbove(s, g.current, r) then
      Some(Up(if g.pressure.Some? && g.pressure.value.Up? then g.pressure.value.since else r.now))
    else None
  }

  predicate MayChange(g: Governor, now: nat) {
    !Within(g.lastChange, now, MIN_CHANGE_GAP)
  }

  /** The smooth policy: the governor before any switch, and the rung to switch to. */
  function SmoothNext(s: Session, g: Governor, r: Report): (n: (Governor, Option<nat>))
    requires GovernorOk(s, g)
    ensures n.0.current == g.current && n.0.lastChange == g.lastChange && n.0.link == g.link
    ensures n.1.Some? ==> n.1.value < |s.ladder| && n.1.value != g.current && MayChange(g, r.now)
  {
    var pressed := g.(pressure := BitratePressure(s, g, r));
    if !MayChange(g, r.now) || pressed.pressure.None? then (pressed, None)
    else
      var p := pressed.pressure.value;
      if p.Down? && Since(r.now, p.since) >= DOWN_AFTER then
        var next := RungBelow(s, g.current, r.kbps);
        (g.(pressure := None), if next != g.current then Some(next) else None)
      else if p.Up? && Since(r.now, p.since) >= UP_AFTER then
        (g.(pressure := None), Some(g.current - 1))
      else (pressed, None)
  }

  /** The sharp policy's choice of rung, given what the link now says. */
  function SharpTarget(s: Session, g: Governor, l: Link, unstable: bool, r: Report): (t: nat)
    requires GovernorOk(s, g)
    ensures t < |s.ladder|
  {
    if unstable then RungBelow(s, g.current, r.kbps)
    else if g.current > 0 && Settled(l, r.now) then 0
    else g.current
  }

  function SharpNext(s: Session, g: Governor, r: Report): (n: (Governor, Option<nat>))
    requires GovernorOk(s, g)
    ensures n.0.current == g.current && n.0.lastChange == g.lastChange && n.0.pressure == g.pressure
    ensures n.1.Some? ==> n.1.value < |s.ladder| && n.1.value != g.current && MayChange(g, r.now)
  {
    var (l, unstable) := OnReport(g.link, r.congested, r.now);
    if !MayChange(g, r.now) then (g.(link := l), None)
    else
      var next := SharpTarget(s, g, l, unstable, r);
      if next == g.current then (g.(link := l), None)
      else if next == 0 then (g.(link := OnReturn(l, r.now)), Some(next))
      else if g.current == 0 then (g.(link := OnLeave(l, r.now)), Some(next))
      else (g.(link := l), Some(next))
  }

  function Chosen(s: Session, g: Governor, r: Report): (n: (Governor, Option<nat>))
    requires GovernorOk(s, g)
    ensures n.0.current == g.current && n.0.lastChange == g.lastChange
    ensures n.1.Some? ==> n.1.value < |s.ladder| && n.1.value != g.current && MayChange(g, r.now)
  {
    if s.policy == Sharp then SharpNext(s, g, r) else SmoothNext(s, g, r)
  }

  function Update(s: Session, g: Governor, r: Report): (u: Governor)
    requires GovernorOk(s, g)
    ensures GovernorOk(s, u)
  {
    var (h, next) := Chosen(s, g, r);
    if next.None? then h else h.(current := next.value, lastChange := Some(r.now))
  }

  // ---- runs ----

  /** A governor that has taken no report yet, on rung `start`. */
  function Started(start: nat): Governor { Governor(start, None, None, NewLink()) }

  /** The rung a session starts on. */
  function StartRung(s: Session, kbps: u32): (r: nat)
    requires SessionOk(s)
    ensures r < |s.ladder|
  {
    if s.policy == Sharp then 0 else LargestFitting(s, kbps, STAY_MARGIN)
  }

  /** The governor after `rs`, from `g0`. */
  function Run(s: Session, g0: Governor, rs: seq<Report>): (g: Governor)
    requires GovernorOk(s, g0)
    ensures GovernorOk(s, g)
  {
    if rs == [] then g0
    else Update(s, Run(s, g0, rs[..|rs| - 1]), rs[|rs| - 1])
  }

  datatype Change = Change(at: nat, from: nat, to: nat)

  /** The size changes of a run, in order. */
  function Changes(s: Session, g0: Governor, rs: seq<Report>): seq<Change>
    requires GovernorOk(s, g0)
  {
    if rs == [] then []
    else
      var g := Run(s, g0, rs[..|rs| - 1]);
      var r := rs[|rs| - 1];
      var next := Chosen(s, g, r).1;
      Changes(s, g0, rs[..|rs| - 1]) + if next.None? then [] else [Change(r.now, g.current, next.value)]
  }

  /** A clock that does not go back. */
  predicate Ordered(rs: seq<Report>) {
    forall i, j :: 0 <= i <= j < |rs| ==> rs[i].now <= rs[j].now
  }

  /** Changes chain from rung to rung, and the newest one is what the governor remembers. */
  lemma {:induction false} ChangesChain(s: Session, g0: Governor, rs: seq<Report>)
    requires GovernorOk(s, g0)
    ensures var (g, log) := (Run(s, g0, rs), Changes(s, g0, rs));
            && g.current == (if log == [] then g0.current else log[|log| - 1].to)
            && g.lastChange == (if log == [] then g0.lastChange else Some(log[|log| - 1].at))
            && (log != [] ==> log[0].from == g0.current)
            && (forall e :: 0 < e < |log| ==> log[e].from == log[e - 1].to)
            && (forall e :: 0 <= e < |log| ==> log[e].from != log[e].to && log[e].to < |s.ladder|)
  {
    if rs != [] { ChangesChain(s, g0, rs[..|rs| - 1]); }
  }

  lemma {:induction false} ChangesPast(s: Session, g0: Governor, rs: seq<Report>, e: nat)
    requires GovernorOk(s, g0) && Ordered(rs) && e < |Changes(s, g0, rs)|
    ensures rs != [] && Changes(s, g0, rs)[e].at <= rs[|rs| - 1].now
  {
    var before := Changes(s, g0, rs[..|rs| - 1]);
    if e < |before| { ChangesPast(s, g0, rs[..|rs| - 1], e); }
  }

  lemma {:induction false} NewestIsSpaced(s: Session, g0: Governor, rs: seq<Report>)
    requires GovernorOk(s, g0) && Ordered(rs) && rs != []
    requires var before := Changes(s, g0, rs[..|rs| - 1]);
             0 < |before| < |Changes(s, g0, rs)|
    ensures var n := |Changes(s, g0, rs)|;
            Changes(s, g0, rs)[n - 1].at >= Changes(s, g0, rs)[n - 2].at + MIN_CHANGE_GAP
  {
    ChangesChain(s, g0, rs[..|rs| - 1]);
    ChangesPast(s, g0, rs[..|rs| - 1], |Changes(s, g0, rs[..|rs| - 1])| - 1);
  }

  predicate NeighboursSpaced(log: seq<Change>) {
    forall e :: 0 < e < |log| ==> log[e].at >= log[e - 1].at + MIN_CHANGE_GAP
  }

  lemma {:induction false} EachIsSpaced(s: Session, g0: Governor, rs: seq<Report>)
    requires GovernorOk(s, g0) && Ordered(rs)
    ensures NeighboursSpaced(Changes(s, g0, rs))
  {
    if rs != [] {
      var before := Changes(s, g0, rs[..|rs| - 1]);
      EachIsSpaced(s, g0, rs[..|rs| - 1]);
      if 0 < |before| < |Changes(s, g0, rs)| { NewestIsSpaced(s, g0, rs); }
    }
  }

  lemma {:induction false} AllAreSpaced(log: seq<Change>, i: nat, j: nat)
    requires NeighboursSpaced(log) && i < j < |log|
    ensures log[j].at >= log[i].at + MIN_CHANGE_GAP
    decreases j
  {
    assert log[j].at >= log[j - 1].at + MIN_CHANGE_GAP;
    if i < j - 1 { AllAreSpaced(log, i, j - 1); }
  }

  /** Under either policy two size changes are at least `MIN_CHANGE_GAP` apart. */
  lemma {:induction false} ChangesAreSpaced(s: Session, g0: Governor, rs: seq<Report>, i: nat, j: nat)
    requires GovernorOk(s, g0) && Ordered(rs) && i < j < |Changes(s, g0, rs)|
    ensures Changes(s, g0, rs)[j].at >= Changes(s, g0, rs)[i].at + MIN_CHANGE_GAP
  {
    EachIsSpaced(s, g0, rs);
    AllAreSpaced(Changes(s, g0, rs), i, j);
  }

  // ---- the classes ----

  class Stability {
    var runStart: Option<nat>
    var lastCongested: Option<nat>
    var lastUnstable: Option<nat>
    var lastReturn: Option<nat>
    var retryAfter: nat

    function Value(): Link reads this {
      Link(runStart, lastCongested, lastUnstable, lastReturn, retryAfter)
    }

    constructor ()
      ensures Value() == NewLink()
    {
      runStart, lastCongested, lastUnstable, lastReturn, retryAfter := None, None, None, None, UP_AFTER;
    }

    method Report(congested: bool, now: nat) returns (unstable: bool)
      modifies this
      ensures (Value(), unstable) == OnReport(old(Value()), congested, now)
    {
      if !congested {
        return false;
      }
      if !Within(lastCongested, now, CALM_GAP) {
        runStart := Some(now);
      }
      lastCongested := Some(now);
      unstable := runStart.Some? && Since(now, runStart.value) >= DOWN_AFTER;
      if unstable {
        lastUnstable := Some(now);
      }
    }

    method Return(now: nat)
      modifies this
      ensures Value() == OnReturn(old(Value()), now)
    {
      lastReturn := Some(now);
    }

    method Leave(now: nat)
      modifies this
      ensures Value() == OnLeave(old(Value()), now)
    {
      var failed := Within(lastReturn, now, RETRY_HOLD);
      retryAfter := if failed then Min(retryAfter * 2, MAX_UP_AFTER) else UP_AFTER;
    }
  }

  class ResolutionGovernor {
    const session: Session
    const stability: Stability
    var current: nat
    var pressure: Option<Pressure>
    var lastChange: Option<nat>
    /** The governor as it was last started, and the reports since. */
    ghost var base: Governor
    ghost var history: seq<Report>

    ghost predicate Valid() reads this, stability {
      GovernorOk(session, base) && Value() == Run(session, base, history)
    }

    function Value(): Governor reads this, stability {
      Governor(current, pressure, lastChange, stability.Value())
    }

    constructor (w: u32, h: u32, fps: u32, h264: bool, policy: Policy)
      ensures Valid() && fresh(stability) && history == [] && base == Started(0)
      ensures session == Session(Ladder(w, h), fps, h264, policy)
    {
      LadderShape(w, h);
      var rungs := BuildLadder(w, h);
      session := Session(rungs, fps, h264, policy);
      var link := new Stability();
      stability := link;
      current, pressure, lastChange, base, history := 0, None, None, Started(0), [];
    }

    method Largest(kbps: u32, margin: real) returns (r: nat)
      requires |session.ladder| > 0
      ensures r == LargestFitting(session, kbps, margin)
    {
      r := 0;
      while r < |session.ladder| - 1 && !FitsAt(session, r, kbps, margin)
        invariant r < |session.ladder|
        invariant FirstFitting(session, kbps, margin, r) == LargestFitting(session, kbps, margin)
      {
        r := r + 1;
      }
    }

    method Start(kbps: u32) returns (size: Size)
      requires Valid()
      modifies this
      ensures Valid() && history == [] && base == old(Value()).(current := StartRung(session, kbps))
      ensures size == session.ladder[StartRung(session, kbps)]
    {
      if session.policy == Sharp {
        current := 0;
      } else {
        current := Largest(kbps, STAY_MARGIN);
      }
      base, history := Value(), [];
      size := session.ladder[current];
    }

    method Below(kbps: u32) returns (r: nat)
      requires |session.ladder| > 0 && current < |session.ladder|
      ensures r == RungBelow(session, current, kbps)
    {
      var fit := Largest(kbps, 1.0);
      r := Min(Max(fit, current + 1), |session.ladder| - 1);
    }

    method SmoothStep(r: Report, mayChange: bool) returns (next: Option<nat>)
      requires GovernorOk(session, Value()) && mayChange == MayChange(Value(), r.now)
      modifies this`pressure
      ensures (Value(), next) == SmoothNext(session, old(Value()), r)
    {
      pressure := BitratePressure(session, Value(), r);
      if !mayChange || pressure.None? {
        return None;
      }
      var target := current;
      if pressure.value.Down? && Since(r.now, pressure.value.since) >= DOWN_AFTER {
        target := Below(r.kbps);
      } else if pressure.value.Up? && Since(r.now, pressure.value.since) >= UP_AFTER {
        target := current - 1;
      } else {
        return None;
      }
      pressure := None;
      next := if target != current then Some(target) else None;
    }

    method SharpStep(r: Report, mayChange: bool) returns (next: Option<nat>)
      requires GovernorOk(session, Value()) && mayChange == MayChange(Value(), r.now)
      modifies stability
      ensures (Value(), next) == SharpNext(session, old(Value()), r)
    {
      var unstable := stability.Report(r.congested, r.now);
      if !mayChange {
        return None;
      }
      var target := current;
      if unstable {
        target := Below(r.kbps);
      } else if current > 0 && Settled(stability.Value(), r.now) {
        target := 0;
      } else {
        return None;
      }
      if target == current {
        return None;
      }
      if target == 0 {
        stability.Return(r.now);
      } else if current == 0 {
        stability.Leave(r.now);
      }
      next := Some(target);
    }

    /** Takes one report, apart from recording it. */
    method Apply(r: Report) returns (size: Option<Size>)
      requires GovernorOk(session, Value())
      modifies this`current, this`pressure, this`lastChange, stability
      ensures Value() == Update(session, old(Value()), r)
      ensures size == (if current == old(current) then None else Some(session.ladder[current]))
    {
      var mayChange := !Within(lastChange, r.now, MIN_CHANGE_GAP);
      var next: Option<nat>;
      if session.policy == Sharp {
        next := SharpStep(r, mayChange);
      } else {
        next := SmoothStep(r, mayChange);
      }
      size := None;
      if next.Some? {
        current := next.value;
        lastChange := Some(r.now);
        size := Some(session.ladder[current]);
      }
    }

    method Decide(r: Report) returns (size: Option<Size>)
      requires Valid()
      modifies this, stability
      ensures Valid() && history == old(history) + [r] && base == old(base)
      ensures size == (if current == old(current) then None else Some(session.ladder[current]))
    {
      Extends(session, base, history, r);
      size := Apply(r);
      history := history + [r];
    }
  }

  lemma {:induction false} Extends(s: Session, g0: Governor, rs: seq<Report>, r: Report)
    requires GovernorOk(s, g0)
    ensures Run(s, g0, rs + [r]) == Update(s, Run(s, g0, rs), r)
  {
    assert (rs + [r])[..|rs|] == rs;
  }
}
