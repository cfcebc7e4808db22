/** The bitrate controller: one decision per feedback report, from loss and queuing delay. */
module Abr {
  import opened Prelude

  datatype AbrState = Steady | ProbeUp | Backoff | Panic

  datatype Signals = Signals(lossRate: real, queueDelayMs: real, sendQueueMs: real,
                             receiveRateKbps: real, appLimited: bool)

  datatype Settings = Settings(minBitrate: u32, maxBitrate: u32, initial: u32, step: u32,
                               lossThreshold: real, panicThreshold: real)

  datatype Decision = Decision(state: AbrState, target: u32, requestKeyframe: bool)

  const DELAY_BACKOFF_MS := 40.0
  const DELAY_PANIC_MS := 250.0
  const DELAY_CLEAN_MS := 20.0
  const BACKOFF_FACTOR := 0.85
  const BACKOFF_RECEIVE_RATE_FRACTION := 0.95
  const PANIC_RECEIVE_RATE_FRACTION := 0.7
  const PROBE_FACTOR := 0.08
  const BACKOFF_HOLD_TICKS := 3
  const PROBE_TRIGGER_INTERVALS := 5

  /** `x` brought into `lo ..= hi`. */
  function Clamp(x: real, lo: real, hi: real): (r: real)
    requires lo <= hi
    ensures lo <= r <= hi
    ensures lo <= x <= hi ==> r == x
  {
    if x < lo then lo else if hi < x then hi else x
  }

  /** To the nearest whole number, halves away from zero. */
  function Round(x: real): (n: nat)
    requires x >= 0.0
    ensures x - 0.5 < n as real <= x + 0.5
  {
    (x + 0.5).Floor
  }

  function Loss(s: Signals): real { Clamp(s.lossRate, 0.0, 1.0) }
  function Delay(s: Signals): real { RMax(RMax(s.queueDelayMs, s.sendQueueMs), 0.0) }

  function BackoffLoss(c: Settings): real { RMin(c.lossThreshold * 5.0, c.panicThreshold) }

  function Classify(c: Settings, loss: real, delay: real, clean: nat): AbrState {
    if loss >= c.panicThreshold || delay >= DELAY_PANIC_MS then Panic
    else if loss >= BackoffLoss(c) || delay > DELAY_BACKOFF_MS then Backoff
    else if loss <= c.lossThreshold && delay < DELAY_CLEAN_MS && clean >= PROBE_TRIGGER_INTERVALS then ProbeUp
    else Steady
  }

  /** What the engine holds between reports. */
  datatype Engine = Engine(bitrate: u32, state: AbrState, clean: nat, hold: nat)

  function Ceiling(c: Settings): u32 { Max(c.maxBitrate, c.minBitrate) }

  /** The bitrate after a request for `kbps`: within the session's bounds, and whole. */
  function Bounded(c: Settings, kbps: real): (b: u32)
    ensures c.minBitrate <= b <= Ceiling(c)
  {
    Round(Clamp(kbps, c.minBitrate as real, Ceiling(c) as real))
  }

  /** Rounding passes no whole number: the bitrate stays on the side of `n` that was asked for. */
  lemma {:induction false} BoundedKeepsSide(c: Settings, kbps: real, n: nat)
    ensures c.minBitrate <= n && kbps <= n as real ==> Bounded(c, kbps) <= n
    ensures n <= Ceiling(c) && n as real <= kbps ==> n <= Bounded(c, kbps)
  {
  }

  function ProbeTarget(c: Settings, bitrate: u32): real {
    bitrate as real + RMin(RMax(bitrate as real * PROBE_FACTOR, 100.0), Max(c.step, 1) as real)
  }

  function BackoffTarget(bitrate: u32, receiveRate: real): real {
    var next := bitrate as real * BACKOFF_FACTOR;
    if receiveRate > 0.0 then RMin(next, receiveRate * BACKOFF_RECEIVE_RATE_FRACTION) else next
  }

  function PanicTarget(bitrate: u32, receiveRate: real): real {
    var next := bitrate as real / 2.0;
    if receiveRate > 0.0 then RMin(next, receiveRate * PANIC_RECEIVE_RATE_FRACTION) else next
  }

  /** Congestion-free and below the probing threshold. */
  predicate Low(c: Settings, s: Signals) {
    Loss(s) <= c.lossThreshold && Delay(s) < DELAY_CLEAN_MS
  }

  function Next(c: Settings, e: Engine, s: Signals): Engine {
    var state := Classify(c, Loss(s), Delay(s), e.clean);
    var hold := if e.hold == 0 then 0 else e.hold - 1;
    match state
    case Steady => Engine(e.bitrate, state, if Low(c, s) then e.clean + 1 else 0, hold)
    case ProbeUp =>
      Engine(if s.appLimited then e.bitrate else Bounded(c, ProbeTarget(c, e.bitrate)), state, 0, hold)
    case Backoff =>
      if hold == 0 then
        Engine(Bounded(c, BackoffTarget(e.bitrate, s.receiveRateKbps)), state, 0, BACKOFF_HOLD_TICKS)
      else Engine(e.bitrate, state, 0, hold)
    case Panic =>
      if e.state != Panic then
        Engine(Bounded(c, PanicTarget(e.bitrate, s.receiveRateKbps)), state, 0, BACKOFF_HOLD_TICKS)
      else Engine(e.bitrate, state, 0, hold)
  }

  predicate RequestsKeyframe(c: Settings, e: Engine, s: Signals) {
    Classify(c, Loss(s), Delay(s), e.clean) == Panic && e.state != Panic && Loss(s) >= c.panicThreshold
  }

  /** The engine after the reports `ss`. */
  function Run(c: Settings, ss: seq<Signals>): Engine {
    if ss == [] then Engine(c.initial, Steady, 0, 0)
    else Next(c, Run(c, ss[..|ss| - 1]), ss[|ss| - 1])
  }

  /** The engine after the first `i` reports of `ss`. */
  function At(c: Settings, ss: seq<Signals>, i: nat): Engine
    requires i <= |ss|
  {
    Run(c, ss[..i])
  }

  lemma {:induction false} AtNext(c: Settings, ss: seq<Signals>, i: nat)
    requires i < |ss|
    ensures At(c, ss, i + 1) == Next(c, At(c, ss, i), ss[i])
  {
    assert ss[..i + 1][..i] == ss[..i];
  }

  predicate InBounds(c: Settings) {
    c.minBitrate <= c.initial <= Ceiling(c)
  }

  /** The bitrate never leaves the session's bounds. */
  lemma {:induction false} StaysInBounds(c: Settings, ss: seq<Signals>)
    requires InBounds(c)
    ensures c.minBitrate <= Run(c, ss).bitrate <= Ceiling(c)
  {
    if ss != [] { StaysInBounds(c, ss[..|ss| - 1]); }
  }

  // ---- what a report is judged, said of its signals ----

  /** Thresholds a session can have: loss rates, of which only the one for probing may exceed 1. */
  predicate Sensible(c: Settings) {
    0.0 < c.lossThreshold && 0.0 < c.panicThreshold <= 1.0
  }

  predicate SaysPanic(c: Settings, s: Signals) {
    s.lossRate >= c.panicThreshold || s.queueDelayMs >= 250.0 || s.sendQueueMs >= 250.0
  }

  predicate SaysBackoff(c: Settings, s: Signals) {
    || s.queueDelayMs > 40.0 || s.sendQueueMs > 40.0
    || s.lossRate >= c.panicThreshold || s.lossRate >= 5.0 * c.lossThreshold
  }

  /** Either of two delays or heavy loss is a panic, whatever the other signals say. */
  lemma {:induction false} PanicIff(c: Settings, ss: seq<Signals>)
    requires Sensible(c) && ss != []
    ensures Run(c, ss).state == Panic <==> SaysPanic(c, ss[|ss| - 1])
  {
  }

  /** A smaller delay or loss is a backoff, unless it is a panic. */
  lemma {:induction false} BackoffIff(c: Settings, ss: seq<Signals>)
    requires Sensible(c) && ss != []
    ensures Run(c, ss).state == Backoff <==> SaysBackoff(c, ss[|ss| - 1]) && !SaysPanic(c, ss[|ss| - 1])
  {
  }

  /** A report counts towards a probe when loss and both delays are low. */
  lemma {:induction false} CleanIff(c: Settings, s: Signals)
    requires Sensible(c)
    ensures Clean(c, s) <==> && s.lossRate <= c.lossThreshold && s.queueDelayMs < 20.0 && s.sendQueueMs < 20.0
                             && (c.lossThreshold < 1.0 || s.lossRate < 1.0) && s.lossRate < c.panicThreshold
  {
  }

  // ---- probing ----

  /** A report that on its own neither cuts the bitrate nor stops probing. */
  predicate Clean(c: Settings, s: Signals) {
    Low(c, s) && Loss(s) < c.panicThreshold && Loss(s) < BackoffLoss(c)
  }

  /** How many reports at the end of `ss` are clean, without a break. */
  function CleanStreak(c: Settings, ss: seq<Signals>): nat {
    if ss == [] || !Clean(c, ss[|ss| - 1]) then 0 else CleanStreak(c, ss[..|ss| - 1]) + 1
  }

  /** Every sixth clean report in a row probes, and nothing else does. */
  lemma {:induction false} ProbesEverySixth(c: Settings, ss: seq<Signals>)
    ensures Run(c, ss).clean == CleanStreak(c, ss) % 6
    ensures Run(c, ss).state == ProbeUp <==> CleanStreak(c, ss) > 0 && CleanStreak(c, ss) % 6 == 0
  {
    if ss != [] { ProbesEverySixth(c, ss[..|ss| - 1]); }
  }

  lemma {:induction false} SteadyInStreak(c: Settings, ss: seq<Signals>)
    requires CleanStreak(c, ss) % 6 != 0
    ensures Run(c, ss).state == Steady
  {
    ProbesEverySixth(c, ss[..|ss| - 1]);
  }

  lemma {:induction false} StreakIsClean(c: Settings, ss: seq<Signals>, k: nat)
    requires k < CleanStreak(c, ss)
    ensures k < |ss| && Clean(c, ss[|ss| - 1 - k])
  {
    if k > 0 {
      StreakIsClean(c, ss[..|ss| - 1], k - 1);
    }
  }

  predicate Rises(c: Settings, ss: seq<Signals>, i: nat)
    requires i < |ss|
  {
    At(c, ss, i + 1).bitrate > At(c, ss, i).bitrate
  }

  predicate Falls(c: Settings, ss: seq<Signals>, i: nat)
    requires i < |ss|
  {
    At(c, ss, i + 1).bitrate < At(c, ss, i).bitrate
  }

  /** A cut never raises the bitrate, and a probe never lowers it. */
  lemma {:induction false} DirectionOf(c: Settings, ss: seq<Signals>, i: nat)
    requires InBounds(c) && i < |ss|
    ensures Rises(c, ss, i) ==> At(c, ss, i + 1).state == ProbeUp && !ss[i].appLimited
    ensures At(c, ss, i + 1).state == ProbeUp ==> !Falls(c, ss, i)
  {
    AtNext(c, ss, i);
    StaysInBounds(c, ss[..i]);
    var b := At(c, ss, i).bitrate;
    CutsLower(b, ss[i].receiveRateKbps);
    assert ProbeTarget(c, b) >= b as real;
    BoundedKeepsSide(c, ProbeTarget(c, b), b);
    BoundedKeepsSide(c, BackoffTarget(b, ss[i].receiveRateKbps), b);
    BoundedKeepsSide(c, PanicTarget(b, ss[i].receiveRateKbps), b);
  }

  lemma {:induction false} CutsLower(bitrate: u32, receiveRate: real)
    ensures BackoffTarget(bitrate, receiveRate) <= bitrate as real
    ensures PanicTarget(bitrate, receiveRate) <= bitrate as real
  {
  }

  lemma {:induction false} SixCleanBeforeProbe(c: Settings, ss: seq<Signals>, i: nat)
    requires i < |ss| && CleanStreak(c, ss[..i + 1]) >= 6
    ensures i >= 5
    ensures forall k :: i - 5 <= k <= i ==> Clean(c, ss[k])
  {
    StreakIsClean(c, ss[..i + 1], 5);
    forall k | i - 5 <= k <= i
      ensures Clean(c, ss[k])
    {
      StreakIsClean(c, ss[..i + 1], i - k);
    }
  }

  lemma {:induction false} SteadyBeforeProbe(c: Settings, ss: seq<Signals>, i: nat, k: nat)
    requires i < |ss| && CleanStreak(c, ss[..i + 1]) >= 6 && CleanStreak(c, ss[..i + 1]) % 6 == 0
    requires i - 5 < k <= i && i >= 5
    ensures At(c, ss, k).state == Steady
  {
    StreakDrop(c, ss, k, i + 1);
    Residue(CleanStreak(c, ss[..i + 1]), i + 1 - k);
    SteadyInStreak(c, ss[..k]);
  }

  lemma {:induction false} Residue(n: nat, d: nat)
    requires n >= 6 && n % 6 == 0 && 1 <= d <= 5
    ensures n - d > 0 && (n - d) % 6 != 0
  {
  }

  /** The bitrate rises only on a probe, and a probe follows five clean steady reports. */
  lemma {:induction false} RisesAfterFiveClean(c: Settings, ss: seq<Signals>, i: nat)
    requires InBounds(c) && i < |ss| && Rises(c, ss, i)
    ensures i >= 5
    ensures At(c, ss, i + 1).state == ProbeUp && !ss[i].appLimited
    ensures forall k :: i - 5 <= k <= i ==> Clean(c, ss[k])
    ensures forall k :: i - 5 < k <= i ==> At(c, ss, k).state == Steady
  {
    DirectionOf(c, ss, i);
    ProbesEverySixth(c, ss[..i + 1]);
    SixCleanBeforeProbe(c, ss, i);
    forall k: nat | i - 5 < k <= i
      ensures At(c, ss, k).state == Steady
    {
      SteadyBeforeProbe(c, ss, i, k);
    }
  }

  lemma {:induction false} StreakDrop(c: Settings, ss: seq<Signals>, i: nat, j: nat)
    requires i <= j <= |ss| && CleanStreak(c, ss[..j]) >= j - i
    ensures CleanStreak(c, ss[..i]) == CleanStreak(c, ss[..j]) - (j - i)
  {
    if i < j {
      assert ss[..j][..j - 1] == ss[..j - 1];
      StreakDrop(c, ss, i, j - 1);
    }
  }

  /** A probe adds at least one kbps unless it is at the ceiling, and at most the configured step. */
  lemma {:induction false} ProbeSize(c: Settings, ss: seq<Signals>, i: nat)
    requires InBounds(c) && i < |ss| && Run(c, ss[..i + 1]).state == ProbeUp && !ss[i].appLimited
    ensures var (before, after) := (At(c, ss, i).bitrate, At(c, ss, i + 1).bitrate);
            && Min(before + 1, Ceiling(c)) <= after <= before + Max(c.step, 1)
  {
    AtNext(c, ss, i);
    StaysInBounds(c, ss[..i]);
    var b := At(c, ss, i).bitrate;
    var high: nat := b + Max(c.step, 1);
    assert ProbeTarget(c, b) <= high as real;
    var low: nat := Min(b + 1, Ceiling(c));
    assert low as real <= ProbeTarget(c, b);
    BoundedKeepsSide(c, ProbeTarget(c, b), high);
    BoundedKeepsSide(c, ProbeTarget(c, b), low);
  }

  // ---- cutting ----

  /** After a cut the hold runs down by at most one a report. */
  lemma {:induction false} HoldAfterCut(c: Settings, ss: seq<Signals>, i: nat, j: nat)
    requires InBounds(c) && i < j <= |ss| && Falls(c, ss, i)
    ensures At(c, ss, j).hold + (j - i - 1) >= 3
  {
    AtNext(c, ss, j - 1);
    if j == i + 1 {
      DirectionOf(c, ss, i);
    } else {
      HoldAfterCut(c, ss, i, j - 1);
    }
  }

  /** A backoff cut comes at least three reports after any earlier cut, a panic's included. */
  lemma {:induction false} BackoffCutsAreApart(c: Settings, ss: seq<Signals>, i: nat, j: nat)
    requires InBounds(c) && i < j < |ss| && Falls(c, ss, i)
    requires Falls(c, ss, j) && At(c, ss, j + 1).state == Backoff
    ensures j >= i + 3
  {
    HoldAfterCut(c, ss, i, j);
    AtNext(c, ss, j);
  }

  /** Report `i` is one a backoff acts on. */
  predicate Acts(c: Settings, ss: seq<Signals>, i: nat)
    requires i < |ss|
  {
    At(c, ss, i + 1).state == Backoff && At(c, ss, i + 1).hold == BACKOFF_HOLD_TICKS
  }

  lemma {:induction false} HoldIsShort(c: Settings, ss: seq<Signals>)
    ensures Run(c, ss).hold <= BACKOFF_HOLD_TICKS
  {
    if ss != [] { HoldIsShort(c, ss[..|ss| - 1]); }
  }

  /** Under steady congestion exactly one report in any three is acted on. */
  lemma {:induction false} OneCutInThree(c: Settings, ss: seq<Signals>, i: nat)
    requires i + 3 <= |ss|
    requires forall k :: i < k <= i + 3 ==> At(c, ss, k).state == Backoff
    ensures [Acts(c, ss, i), Acts(c, ss, i + 1), Acts(c, ss, i + 2)]
            in {[true, false, false], [false, true, false], [false, false, true]}
  {
    HoldIsShort(c, ss[..i]);
    AtNext(c, ss, i);
    AtNext(c, ss, i + 1);
    AtNext(c, ss, i + 2);
    assert At(c, ss, i + 1).state == At(c, ss, i + 2).state == At(c, ss, i + 3).state == Backoff;
  }

  /** Acting means a cut to 85 % or to what the viewer receives, whichever is less, within bounds. */
  lemma {:induction false} ActsIsACut(c: Settings, ss: seq<Signals>, i: nat)
    requires i < |ss|
    requires At(c, ss, i + 1).state == Backoff
    ensures At(c, ss, i + 1).bitrate
            == if Acts(c, ss, i) then Bounded(c, BackoffTarget(At(c, ss, i).bitrate, ss[i].receiveRateKbps))
               else At(c, ss, i).bitrate
  {
    AtNext(c, ss, i);
    HoldIsShort(c, ss[..i]);
  }

  /** Reports `i .. j` are all judged Panic, and the one before them is not. */
  predicate PanicEpisode(c: Settings, ss: seq<Signals>, i: nat, j: nat) {
    && i < j <= |ss|
    && At(c, ss, i).state != Panic
    && forall k :: i < k <= j ==> At(c, ss, k).state == Panic
  }

  predicate Asks(c: Settings, ss: seq<Signals>, i: nat)
    requires i < |ss|
  {
    RequestsKeyframe(c, At(c, ss, i), ss[i])
  }

  /** One cut in an unbroken panic, on entry; a keyframe request only there, and only for loss. */
  lemma {:induction false} OneCutPerPanic(c: Settings, ss: seq<Signals>, i: nat, j: nat)
    requires PanicEpisode(c, ss, i, j)
    ensures At(c, ss, j).bitrate == Bounded(c, PanicTarget(At(c, ss, i).bitrate, ss[i].receiveRateKbps))
    ensures Asks(c, ss, i) <==> Loss(ss[i]) >= c.panicThreshold
    ensures forall k :: i < k < j ==> !Asks(c, ss, k)
  {
    AtNext(c, ss, j - 1);
    if j > i + 1 {
      assert At(c, ss, j - 1).state == Panic;
      OneCutPerPanic(c, ss, i, j - 1);
    }
    assert At(c, ss, j).state == Panic;
  }

  /** Between two keyframe requests the link left panic. */
  lemma {:induction false} AsksAreSeparated(c: Settings, ss: seq<Signals>, i: nat, j: nat)
    requires i < j < |ss| && Asks(c, ss, i) && Asks(c, ss, j)
    ensures exists k :: i + 1 < k <= j && At(c, ss, k).state != Panic
  {
    AtNext(c, ss, i);
    assert At(c, ss, j).state != Panic;
  }

  // ---- the sizes of the changes ----

  /** `b` is `x` to the nearest whole number, or the bound of the session `x` is beyond. */
  predicate Reached(c: Settings, x: real, b: nat) {
    if x <= c.minBitrate as real then b == c.minBitrate
    else if x >= Ceiling(c) as real then b == Ceiling(c)
    else x - 0.5 < b as real <= x + 0.5
  }

  lemma {:induction false} BoundedReaches(c: Settings, x: real)
    ensures Reached(c, x, Bounded(c, x))
  {
    if x <= c.minBitrate as real {
      BoundedKeepsSide(c, x, c.minBitrate);
    } else if x >= Ceiling(c) as real {
      BoundedKeepsSide(c, x, Ceiling(c));
    }
  }

  /** The least of `share` of the bitrate and `ofRate` of the receive rate, when that is known. */
  function Cut(b: nat, rate: real, share: real, ofRate: real): real {
    var mine := b as real * share;
    if rate > 0.0 && rate * ofRate < mine then rate * ofRate else mine
  }

  /** What a panic's report does: on entry a cut to a half, or 70 % of what the viewer receives. */
  lemma {:induction false} PanicSizes(c: Settings, ss: seq<Signals>, i: nat)
    requires i < |ss| && At(c, ss, i + 1).state == Panic
    ensures var (e, u) := (At(c, ss, i), At(c, ss, i + 1));
            if e.state == Panic then u.bitrate == e.bitrate
            else Reached(c, Cut(e.bitrate, ss[i].receiveRateKbps, 0.5, 0.7), u.bitrate)
  {
    AtNext(c, ss, i);
    BoundedReaches(c, PanicTarget(At(c, ss, i).bitrate, ss[i].receiveRateKbps));
  }

  /** What a backoff's report does: when it is acted on, a cut to 85 %, or 95 % of what the viewer receives. */
  lemma {:induction false} BackoffSizes(c: Settings, ss: seq<Signals>, i: nat)
    requires i < |ss| && At(c, ss, i + 1).state == Backoff
    ensures var (e, u) := (At(c, ss, i), At(c, ss, i + 1));
            if Acts(c, ss, i) then Reached(c, Cut(e.bitrate, ss[i].receiveRateKbps, 0.85, 0.95), u.bitrate)
            else u.bitrate == e.bitrate
  {
    ActsIsACut(c, ss, i);
    BoundedReaches(c, BackoffTarget(At(c, ss, i).bitrate, ss[i].receiveRateKbps));
  }

  /** What a probe adds: 8 %, at least 100 kbps and at most the step. */
  function Added(c: Settings, b: nat): real {
    var more := if b as real * 0.08 > 100.0 then b as real * 0.08 else 100.0;
    var step := Max(c.step, 1) as real;
    if more < step then more else step
  }

  /**
   * A report that is neither adds that much on a probe, unless the encoder had too little to send, and else
   * nothing.
   */
  lemma {:induction false} ProbeSizes(c: Settings, ss: seq<Signals>, i: nat)
    requires i < |ss| && At(c, ss, i + 1).state in {Steady, ProbeUp}
    ensures var (e, u) := (At(c, ss, i), At(c, ss, i + 1));
            if u.state == ProbeUp && !ss[i].appLimited then Reached(c, e.bitrate as real + Added(c, e.bitrate), u.bitrate)
            else u.bitrate == e.bitrate
  {
    AtNext(c, ss, i);
    BoundedReaches(c, ProbeTarget(c, At(c, ss, i).bitrate));
  }

  /** A cut below a bitrate of 4 kbps or more, above the floor, is one of at least 1 kbps. */
  lemma {:induction false} CutIsReal(c: Settings, b: nat, rate: real)
    requires c.minBitrate < b && 4 <= b < 0x1_0000_0000
    ensures Bounded(c, BackoffTarget(b, rate)) < b && Bounded(c, PanicTarget(b, rate)) < b
  {
    BoundedReaches(c, BackoffTarget(b, rate));
    BoundedReaches(c, PanicTarget(b, rate));
  }

  /** Report `i` says the path is congested. */
  predicate Congested(c: Settings, ss: seq<Signals>, i: nat)
    requires i < |ss|
  {
    SaysPanic(c, ss[i]) || SaysBackoff(c, ss[i])
  }

  /** A congested report never raises the bitrate, and cuts it when it must act. */
  lemma {:induction false} CongestedStep(c: Settings, ss: seq<Signals>, i: nat)
    requires Sensible(c) && InBounds(c) && i < |ss| && Congested(c, ss, i)
    ensures var (e, u) := (At(c, ss, i), At(c, ss, i + 1));
            && u.bitrate <= e.bitrate && u.state in {Backoff, Panic}
            && (u.state == Panic <==> SaysPanic(c, ss[i]))
            && (u.bitrate < e.bitrate || u.hold == (if e.hold == 0 then 0 else e.hold - 1) || e.bitrate == c.minBitrate
                || e.bitrate < 4)
            && (u.state == Panic && e.state != Panic && 4 <= e.bitrate && c.minBitrate < e.bitrate ==> u.bitrate < e.bitrate)
            && (u.state == Backoff && e.hold <= 1 && 4 <= e.bitrate && c.minBitrate < e.bitrate ==> u.bitrate < e.bitrate)
  {
    AtNext(c, ss, i);
    StaysInBounds(c, ss[..i]);
    assert ss[..i + 1][i] == ss[i];
    PanicIff(c, ss[..i + 1]);
    BackoffIff(c, ss[..i + 1]);
    DirectionOf(c, ss, i);
    var (b, rate) := (At(c, ss, i).bitrate, ss[i].receiveRateKbps);
    if c.minBitrate < b && 4 <= b { CutIsReal(c, b, rate); }
  }

  /**
   * Congestion is relieved: three congested reports in a row, whether they queue or drop, lower any
   * bitrate above the floor and 3 kbps, unless they only carry on a panic, which has cut it already.
   */
  lemma {:induction false} CongestionLowers(c: Settings, ss: seq<Signals>, i: nat)
    requires Sensible(c) && InBounds(c) && i + 3 <= |ss|
    requires forall k :: i <= k < i + 3 ==> Congested(c, ss, k)
    requires c.minBitrate < At(c, ss, i).bitrate && 4 <= At(c, ss, i).bitrate
    requires !(At(c, ss, i).state == Panic && forall k :: i <= k < i + 3 ==> SaysPanic(c, ss[k]))
    ensures At(c, ss, i + 3).bitrate < At(c, ss, i).bitrate
  {
    HoldIsShort(c, ss[..i]);
    CongestedStep(c, ss, i);
    CongestedStep(c, ss, i + 1);
    CongestedStep(c, ss, i + 2);
  }

  /** The controller, with the reports it has taken. */
  class AbrEngine {
    const settings: Settings
    var currentBitrate: u32
    var state: AbrState
    var consecutiveCleanIntervals: nat
    var backoffHold: nat
    ghost var history: seq<Signals>

    ghost predicate Valid() reads this {
      Value() == Run(settings, history)
    }

    function Value(): Engine reads this {
      Engine(currentBitrate, state, consecutiveCleanIntervals, backoffHold)
    }

    constructor (settings: Settings)
      ensures Valid() && history == [] && this.settings == settings
    {
      this.settings := settings;
      currentBitrate := settings.initial;
      state := Steady;
      consecutiveCleanIntervals := 0;
      backoffHold := 0;
      history := [];
    }

    method SetBitrate(kbps: real)
      modifies this`currentBitrate
      ensures currentBitrate == Bounded(settings, kbps)
    {
      var low := settings.minBitrate as real;
      var high := Max(settings.maxBitrate, settings.minBitrate) as real;
      var clamped := if kbps < low then low else if kbps > high then high else kbps;
      currentBitrate := Round(clamped);
    }

    method Probe()
      modifies this`currentBitrate
      ensures currentBitrate == Bounded(settings, ProbeTarget(settings, old(currentBitrate)))
    {
      var current := currentBitrate as real;
      var proportional := RMax(current * PROBE_FACTOR, 100.0);
      var increase := RMin(proportional, Max(settings.step, 1) as real);
      SetBitrate(current + increase);
    }

    method BackOff(receiveRateKbps: real)
      modifies this`currentBitrate
      ensures currentBitrate == Bounded(settings, BackoffTarget(old(currentBitrate), receiveRateKbps))
    {
      var next := currentBitrate as real * BACKOFF_FACTOR;
      if receiveRateKbps > 0.0 {
        next := RMin(next, receiveRateKbps * BACKOFF_RECEIVE_RATE_FRACTION);
      }
      SetBitrate(next);
    }

    method Halve(receiveRateKbps: real)
      modifies this`currentBitrate
      ensures currentBitrate == Bounded(settings, PanicTarget(old(currentBitrate), receiveRateKbps))
    {
      var next := currentBitrate as real / 2.0;
      if receiveRateKbps > 0.0 {
        next := RMin(next, receiveRateKbps * PANIC_RECEIVE_RATE_FRACTION);
      }
      SetBitrate(next);
    }

    method UpdateSignals(signals: Signals) returns (d: Decision)
      requires Valid()
      modifies this
      ensures Valid() && history == old(history) + [signals]
      ensures d.state == Run(settings, history).state && d.target == Run(settings, history).bitrate
      ensures d.requestKeyframe == Asks(settings, history, |old(history)|)
    {
      ghost var before := Value();
      var loss := Loss(signals);
      var delay := Delay(signals);
      var nextState := Classify(settings, loss, delay, consecutiveCleanIntervals);
      if backoffHold > 0 {
        backoffHold := backoffHold - 1;
      }
      var requestKeyframe := false;
      match nextState {
        case Steady =>
          if loss <= settings.lossThreshold && delay < DELAY_CLEAN_MS {
            consecutiveCleanIntervals := consecutiveCleanIntervals + 1;
          } else {
            consecutiveCleanIntervals := 0;
          }
        case ProbeUp =>
          consecutiveCleanIntervals := 0;
          if !signals.appLimited {
            Probe();
          }
        case Backoff =>
          consecutiveCleanIntervals := 0;
          if backoffHold == 0 {
            BackOff(signals.receiveRateKbps);
            backoffHold := BACKOFF_HOLD_TICKS;
          }
        case Panic =>
          consecutiveCleanIntervals := 0;
          if state != Panic {
            Halve(signals.receiveRateKbps);
            backoffHold := BACKOFF_HOLD_TICKS;
          }
          requestKeyframe := state != Panic && loss >= settings.panicThreshold;
      }
      state := nextState;
      assert Value() == Next(settings, before, signals);
      history := history + [signals];
      assert history[..|history| - 1] == old(history);
      assert At(settings, history, |old(history)|) == before;
      d := Decision(state, currentBitrate, requestKeyframe);
    }
  }
}
