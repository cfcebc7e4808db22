/**
 * Whole runs of the receive window: any sequence of fragments, timer ticks, round-trip updates and
 * skip-aheads, from an empty window.
 */
module WindowRuns {
  import opened Prelude
  import opened Wire
  import opened Fragments
  import opened WindowModel
  import opened WindowSteps
  import opened WindowInvariant

  lemma {:induction false} PollInv(w: Window, now: nat)
    requires Inv(w) && WellShaped(w)
    ensures Inv(Poll(w, now).0) && Poll(w, now).1.frames == [] && Poll(w, now).1.arrived == []
  {
    var w1 := GiveUpExpired(w, now).0;
    if Expired(w, now) != {} {
      var id := Greatest(Expired(w, now));
      GiveUpKeeps(w, id, now);
      GiveUpInv(w, id, now);
      SubsetSize(w1.slots.Keys, w.slots.Keys);
    }
    RequestBase(w1, now);
    RequestAsks(w1, now);
    var w2 := RequestMissing(w1, now).0;
    assert |w2.slots.Keys| == |w1.slots.Keys|;
    assert Inv(w2);
    if KeyRetryDue(w2, now) {
      ReaskInv(w2, now);
    }
  }

  /** Moving the keyframe clock disturbs nothing else. */
  lemma {:induction false} ReaskInv(w: Window, now: nat)
    requires Inv(w)
    ensures Inv(w.(keyAsked := Some(now)))
  {
    var w' := w.(keyAsked := Some(now));
    BaseCarries(w, w');
    RequestedCarries(w, w');
  }

  /** Timer and counter fields play no part in the frame bookkeeping. */
  lemma {:induction false} BaseCarries(w: Window, w': Window)
    requires Base(w)
    requires w'.slots == w.slots && w'.nextId == w.nextId && w'.needKey == w.needKey && w'.highest == w.highest
    requires w.keyAsked.Some? ==> w'.keyAsked.Some?
    ensures Base(w') && WellShaped(w)
    ensures Released(w) ==> Released(w')
  {
    BaseIsShaped(w);
    forall id | id in w'.slots ensures SlotOk(id, w'.slots[id]) && InRange(w', id) {
      assert SlotOk(id, w.slots[id]) && InRange(w, id);
    }
    assert CompleteKeys(w') == CompleteKeys(w);
  }

  lemma {:induction false} RequestedCarries(w: Window, w': Window)
    requires WellShaped(w) && WellShaped(w') && Requested(w)
    requires w'.slots == w.slots && w'.needKey == w.needKey && w'.highest == w.highest && w'.config == w.config
    ensures Requested(w')
  {
    forall id | id in w'.slots && Chased(w', id) ensures OnTheClock(w', id) {
      assert Chased(w, id);
      assert OnTheClock(w, id);
    }
  }

  lemma {:induction false} SetRttInv(w: Window, rtt: nat)
    requires Inv(w)
    ensures Inv(SetRtt(w, rtt))
  {
    BaseCarries(w, SetRtt(w, rtt));
    RequestedCarries(w, SetRtt(w, rtt));
  }

  /** The slots a skip-ahead keeps: keyframes under way. */
  function Kept(w: Window): map<nat, Slot>
    requires w.highest.Some?
  {
    map id | id in w.slots && (id > w.highest.value || w.slots[id].isKey) :: w.slots[id]
  }

  lemma {:induction false} RequireKeyframeInv(w: Window, now: nat)
    requires Inv(w)
    ensures Inv(RequireKeyframe(w, now)) && RequireKeyframe(w, now).needKey
    ensures w.nextId.Some? ==>
              RequireKeyframe(w, now).nextId.Some? && RequireKeyframe(w, now).nextId.value >= w.nextId.value
  {
    var w' := RequireKeyframe(w, now);
    BaseIsShaped(w);
    if w.highest.None? {
      assert forall id :: id in w.slots ==> InRange(w, id);
    } else {
      var kept := Kept(w);
      assert w'.slots == kept;
      SubsetSize(kept.Keys, w.slots.Keys);
      if kept != map[] {
        LeastKey(kept);
        var k := Least(kept.Keys);
        assert k in kept && InRange(w, k);
      }
    }
    forall id | id in w'.slots ensures SlotOk(id, w'.slots[id]) && InRange(w', id) {
      assert SlotOk(id, w.slots[id]) && InRange(w, id);
    }
    assert CompleteKeys(w') <= CompleteKeys(w);
    BaseIsShaped(w');
    forall id | id in w'.slots && Chased(w', id) ensures OnTheClock(w', id) {
      assert NoLaterKey(w, id) by {
        forall k | k in w.slots && k > id ensures !w.slots[k].isKey {
          assert InRange(w, k);
          assert w.slots[k].isKey <==> k in w'.slots;
        }
      }
      assert InRange(w, id) && Chased(w, id);
      assert OnTheClock(w, id);
    }
  }

  lemma {:induction false} StepInv(w: Window, e: Event)
    requires Inv(w) && WellShaped(w)
    ensures Inv(Step(w, e).0)
  {
    match e
    case Fragment(h, payload, now) => InsertInv(w, h, payload, now);
    case Tick(now) => PollInv(w, now);
    case Rtt(rtt) => SetRttInv(w, rtt);
    case SkipAhead(now) => RequireKeyframeInv(w, now);
  }

  lemma {:induction false} NewInv(c: Config)
    ensures Inv(New(c))
  {
    assert CompleteKeys(New(c)) == {};
  }

  /** The window after a run, and what each of its calls put out. */
  ghost function Run(c: Config, es: seq<Event>): (r: (Window, seq<Output>))
    ensures Inv(r.0) && WellShaped(r.0)
    ensures |r.1| == |es|
  {
    if es == [] then
      NewInv(c);
      BaseIsShaped(New(c));
      (New(c), [])
    else
      var (w, outs) := Run(c, es[..|es| - 1]);
      StepInv(w, es[|es| - 1]);
      var (w', out) := Step(w, es[|es| - 1]);
      BaseIsShaped(w');
      (w', outs + [out])
  }

  /** Everything handed to the decoder over a run, in order. */
  function Handed(outs: seq<Output>): seq<Frame> {
    if outs == [] then [] else Handed(outs[..|outs| - 1]) + outs[|outs| - 1].frames
  }

  // ---- reference-chain safety ----

  /**
   * Ids strictly increase, the first frame is a keyframe, and any other non-key frame directly follows its
   * reference.
   */
  predicate DecodeOrder(fs: seq<Frame>) {
    && (fs != [] ==> fs[0].isKey)
    && (forall i :: 0 < i < |fs| ==> fs[i - 1].id < fs[i].id)
    && (forall i :: 0 < i < |fs| && !fs[i].isKey ==> fs[i].id == fs[i - 1].id + 1)
  }

  /** How the window relates to the last frame the decoder took. */
  predicate Linked(w: Window, last: Option<nat>) {
    && (last.Some? ==> w.nextId.Some? && last.value < w.nextId.value)
    && (!w.needKey ==> last.Some? && w.nextId.Some? && last.value + 1 == w.nextId.value)
  }

  function LastId(fs: seq<Frame>): Option<nat> {
    if fs == [] then None else Some(fs[|fs| - 1].id)
  }

  lemma {:induction false} FollowsDecodeOrder(before: seq<Frame>, intact: bool, fs: seq<Frame>)
    requires DecodeOrder(before) && Follows(LastId(before), intact, fs)
    ensures DecodeOrder(before + fs)
    decreases |fs|
  {
    if fs == [] {
      assert before + fs == before;
    } else {
      var b := before + [fs[0]];
      assert DecodeOrder(b);
      FollowsDecodeOrder(b, true, fs[1..]);
      assert before + fs == b + fs[1..];
    }
  }

  lemma {:induction false} LinkedCarries(w: Window, w': Window, last: Option<nat>)
    requires Linked(w, last)
    requires w.nextId.Some? ==> w'.nextId.Some? && w'.nextId.value >= w.nextId.value
    requires !w'.needKey ==> !w.needKey && w'.nextId == w.nextId
    ensures Linked(w', last)
  {
  }

  lemma {:induction false} NoteLinked(w: Window, frameId: nat, isKey: bool, now: nat, last: Option<nat>)
    requires WellShaped(w) && Linked(w, last)
    ensures Linked(NoteNewFrame(w, frameId, isKey, now).0, last)
  {
    LinkedCarries(w, NoteNewFrame(w, frameId, isKey, now).0, last);
  }

  lemma {:induction false} SettleLinked(w: Window, now: nat, last: Option<nat>)
    requires Base(w) && WellShaped(w) && Linked(w, last)
    ensures var (w', out) := Settle(w, now);
            && Follows(last, !w.needKey, out.frames)
            && Linked(w', if out.frames == [] then last else LastId(out.frames))
  {
    ReleaseSafe(w, last);
    ReleaseAdvances(w);
    ReleaseStage(w);
    RequestStage(Release(w).0, now);
    SettleStages(w, now);
    var (w1, frames) := Release(w);
    var w2 := RequestMissing(w1, now).0;
    EnforceInv(w2, now);
    LinkedCarries(w2, EnforceCapacity(w2, now).0, if frames == [] then last else LastId(frames));
  }

  lemma {:induction false} StoredLinked(w: Window, h: Header, payload: Bytes, now: nat, last: Option<nat>)
    requires Base(w) && WellShaped(w) && Linked(w, last) && Accepted(w, h, now)
    ensures var w' := Stored(w, h, payload, now).0;
            Base(w') && Linked(w', last) && (w.needKey ==> w'.needKey)
  {
    NoteLinked(w, h.frameId, IsKeyframe(h), now, last);
    NoteKeepsWaiting(w, h.frameId, IsKeyframe(h), now);
    StoredBase(w, h, payload, now);
  }

  lemma {:induction false} FollowsAny(last: Option<nat>, intact: bool, frames: seq<Frame>)
    requires Follows(last, intact, frames)
    ensures Follows(last, true, frames) && (!intact && frames != [] ==> frames[0].isKey)
  {
  }

  lemma {:induction false} InsertLinked(w: Window, h: Header, payload: Bytes, now: nat, last: Option<nat>)
    requires Inv(w) && WellShaped(w) && Linked(w, last)
    ensures var (w', out, _) := Insert(w, h, payload, now);
            && Follows(last, true, out.frames)
            && (w.needKey && out.frames != [] ==> out.frames[0].isKey)
            && Linked(w', if out.frames == [] then last else LastId(out.frames))
  {
    if Accepted(w, h, now) {
      StoredLinked(w, h, payload, now, last);
      var w1 := Stored(w, h, payload, now).0;
      SettleLinked(w1, now, last);
      FollowsAny(last, !w1.needKey, Settle(w1, now).1.frames);
    } else {
      InsertRefused(w, h, payload, now);
    }
  }

  lemma {:induction false} PollLinked(w: Window, now: nat, last: Option<nat>)
    requires Inv(w) && WellShaped(w) && Linked(w, last)
    ensures Linked(Poll(w, now).0, last)
  {
    var w1 := GiveUpExpired(w, now).0;
    if Expired(w, now) != {} {
      GiveUpInv(w, Greatest(Expired(w, now)), now);
      LinkedCarries(w, w1, last);
    }
    LinkedCarries(w1, Poll(w, now).0, last);
  }

  lemma {:induction false} StepLinked(w: Window, e: Event, last: Option<nat>)
    requires Inv(w) && WellShaped(w) && Linked(w, last)
    ensures var (w', out) := Step(w, e);
            && Follows(last, true, out.frames)
            && (w.needKey && out.frames != [] ==> out.frames[0].isKey)
            && Linked(w', if out.frames == [] then last else LastId(out.frames))
  {
    match e
    case Fragment(h, payload, now) => InsertLinked(w, h, payload, now, last);
    case Tick(now) =>
      PollInv(w, now);
      PollLinked(w, now, last);
    case Rtt(rtt) =>
    case SkipAhead(now) =>
      RequireKeyframeInv(w, now);
      LinkedCarries(w, RequireKeyframe(w, now), last);
  }

  lemma {:induction false} HandedStep(outs: seq<Output>, out: Output)
    ensures Handed(outs + [out]) == Handed(outs) + out.frames
  {
    assert (outs + [out])[..|outs|] == outs;
  }

  lemma {:induction false} LastIdOf(before: seq<Frame>, frames: seq<Frame>)
    ensures LastId(before + frames) == if frames == [] then LastId(before) else LastId(frames)
  {
    if frames == [] { assert before + frames == before; }
  }

  lemma {:induction false} DecodeOrderStep(w: Window, e: Event, before: seq<Frame>)
    requires Inv(w) && WellShaped(w) && DecodeOrder(before) && Linked(w, LastId(before))
    ensures DecodeOrder(before + Step(w, e).1.frames) && Linked(Step(w, e).0, LastId(before + Step(w, e).1.frames))
  {
    StepLinked(w, e, LastId(before));
    var frames := Step(w, e).1.frames;
    FollowsDecodeOrder(before, true, frames);
    LastIdOf(before, frames);
  }

  /**
   * Over every run, skip-aheads and give-ups included, the decoder gets frames in increasing order,
   * starts on a keyframe, and never gets a non-key frame without the frame just before it.
   */
  lemma {:induction false} HandedInDecodeOrder(c: Config, es: seq<Event>)
    ensures DecodeOrder(Handed(Run(c, es).1)) && Linked(Run(c, es).0, LastId(Handed(Run(c, es).1)))
  {
    if es != [] {
      var before := es[..|es| - 1];
      HandedInDecodeOrder(c, before);
      var (w, outs) := Run(c, before);
      DecodeOrderStep(w, es[|es| - 1], Handed(outs));
      HandedStep(outs, Step(w, es[|es| - 1]).1);
    }
  }

  /** While a keyframe is awaited, the next frame handed out is one. */
  lemma {:induction false} BrokenChainRestartsOnKeyframe(c: Config, es: seq<Event>, e: Event)
    requires Run(c, es).0.needKey && Step(Run(c, es).0, e).1.frames != []
    ensures Step(Run(c, es).0, e).1.frames[0].isKey
  {
    HandedInDecodeOrder(c, es);
    StepLinked(Run(c, es).0, e, LastId(Handed(Run(c, es).1)));
  }

  /**
   * Eager release within bounds, in every reachable state: no complete keyframe is held, the frame
   * the chain waits for is not complete, nothing held is stale, and at most `maxHeld` frames are held.
   */
  lemma {:induction false} EagerAndBounded(c: Config, es: seq<Event>)
    ensures var w := Run(c, es).0;
            && (forall id :: id in w.slots && w.slots[id].complete.Some?
                             ==> !w.slots[id].isKey && !w.slots[id].complete.value.isKey)
            && (!w.needKey && w.nextId.value in w.slots ==> w.slots[w.nextId.value].complete.None?)
            && (forall id :: id in w.slots && w.nextId.Some? ==> id >= w.nextId.value)
            && |w.slots| <= w.config.maxHeld
  {
    var w := Run(c, es).0;
    forall id | id in w.slots
      ensures (w.nextId.Some? ==> id >= w.nextId.value)
              && (w.slots[id].complete.Some? ==> !w.slots[id].isKey && !w.slots[id].complete.value.isKey) {
      assert SlotOk(id, w.slots[id]) && InRange(w, id) && id !in CompleteKeys(w);
    }
  }

  /** The timers never hand out a frame, in any reachable state. */
  lemma {:induction false} PollHandsOutNothing(c: Config, es: seq<Event>, now: nat)
    ensures Poll(Run(c, es).0, now).1.frames == []
  {
    PollInv(Run(c, es).0, now);
  }
}
