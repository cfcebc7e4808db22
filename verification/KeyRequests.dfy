/** When the viewer asks for a keyframe: on every break of the chain, and again at intervals until one comes. */
module KeyRequests {
  import opened Prelude
  import opened Wire
  import opened Fragments
  import opened WindowModel
  import opened WindowSteps
  import opened WindowInvariant
  import opened WindowRuns
  import opened WindowTimers
  import opened WindowNacks

  // ---- stage by stage ----

  lemma {:induction false} NoteAsks(w: Window, f: nat, isKey: bool, now: nat)
    requires WellShaped(w)
    ensures var (w', loss) := NoteNewFrame(w, f, isKey, now);
            && w'.keyAsked.Some? && (w.needKey ==> w'.needKey)
            && (loss.needKey <==> w'.needKey && !w.needKey)
            && (loss.needKey ==> w'.keyAsked == Some(now))
            && (!loss.needKey && w.keyAsked.Some? ==> w'.keyAsked == w.keyAsked)
  {
  }

  /** A jump that breaks the chain leaves no keyframe to go on from. */
  lemma {:induction false} JumpLeavesNoKey(w: Window, h: Header, payload: Bytes, now: nat)
    requires Inv(w) && WellShaped(w) && Accepted(w, h, now)
    requires NoteNewFrame(w, h.frameId, IsKeyframe(h), now).1.needKey
    ensures CompleteKeys(Stored(w, h, payload, now).0) == {} && Stored(w, h, payload, now).0.needKey
  {
    var w0 := NoteNewFrame(w, h.frameId, IsKeyframe(h), now).0;
    assert forall id :: id in w.slots ==> InRange(w, id);
    assert w0.slots == map[];
    NoteKeepsShape(w, h.frameId, IsKeyframe(h), now);
    assert SlotFor(w0, h.frameId, h.fragTotal) == Sized(UNKNOWN, h.fragTotal);
  }

  lemma {:induction false} StoredAsks(w: Window, h: Header, payload: Bytes, now: nat)
    requires WellShaped(w) && Accepted(w, h, now)
    ensures var (w', w0) := (Stored(w, h, payload, now).0, NoteNewFrame(w, h.frameId, IsKeyframe(h), now).0);
            w'.needKey == w0.needKey && w'.keyAsked == w0.keyAsked && w'.config == w.config
  {
  }

  /** Giving up to keep within bounds asks exactly when it breaks the chain. */
  lemma {:induction false} EnforceAsks(w: Window, now: nat)
    requires Base(w) && Released(w) && WellShaped(w) && Requested(w)
    ensures var (w', out) := EnforceCapacity(w, now);
            && (out.needKey <==> w'.needKey && !w.needKey)
            && (w.needKey ==> w'.needKey)
            && (out.needKey ==> w'.keyAsked == Some(now)) && (!out.needKey ==> w'.keyAsked == w.keyAsked)
    decreases w.slots.Keys
  {
    if |w.slots| > w.config.maxHeld {
      assert w.slots.Keys != {};
      var oldest := Least(w.slots.Keys);
      GiveUpKeeps(w, oldest, now);
      GiveUpInv(w, oldest, now);
      EnforceAsks(GiveUpThrough(w, oldest, now).0, now);
    }
  }

  /** What a call puts out is a jump's loss, and what settling puts out. */
  lemma {:induction false} InsertAsks(w: Window, h: Header, payload: Bytes, now: nat)
    requires WellShaped(w) && Accepted(w, h, now)
    ensures var (w', out, _) := Insert(w, h, payload, now);
            var settled := Settle(Stored(w, h, payload, now).0, now);
            && w' == settled.0 && out.frames == settled.1.frames
            && (out.needKey <==> NoteNewFrame(w, h.frameId, IsKeyframe(h), now).1.needKey || settled.1.needKey)
  {
  }

  /** Settling hands out, which can mend the chain, and keeps within bounds, which can break it. */
  lemma {:induction false} SettleAsks(w: Window, now: nat)
    requires Base(w) && WellShaped(w)
    ensures var (w', out) := Settle(w, now); var w1 := Release(w).0;
            && out.frames == Release(w).1
            && w1.needKey == (w.needKey && out.frames == [])
            && (out.needKey <==> w'.needKey && !w1.needKey) && (w1.needKey ==> w'.needKey)
            && (out.needKey ==> w'.keyAsked == Some(now)) && (!out.needKey ==> w'.keyAsked == w1.keyAsked)
            && (out.frames == [] ==> w1 == w)
  {
    ReleaseAdvances(w);
    ReleaseStage(w);
    var w1 := Release(w).0;
    RequestStage(w1, now);
    SettleStages(w, now);
    EnforceAsks(RequestMissing(w1, now).0, now);
    ReleaseKeepsChain(w);
    SettleOut(w, now);
  }

  lemma {:induction false} SettleOut(w: Window, now: nat)
    requires WellShaped(w)
    ensures WellShaped(Release(w).0)
    ensures Settle(w, now).1.needKey == EnforceCapacity(RequestMissing(Release(w).0, now).0, now).1.needKey
  {
    ReleaseKeeps(w);
  }

  lemma {:induction false} ReleaseKeepsChain(w: Window)
    ensures !w.needKey ==> !Release(w).0.needKey
    decreases w.slots.Keys
  {
    if NextReady(w) {
      TakeNextShrinks(w);
      ReleaseKeepsChain(TakeNext(w));
    } else if CompleteKeys(w) != {} {
      var id := Least(CompleteKeys(w));
      TakeKeyShrinks(w, id);
      ReleaseKeepsChain(TakeKey(w, id));
    }
  }

  // ---- call by call ----

  /** A fragment asks exactly when the chain is broken after it that was intact before it, or mended within it. */
  lemma {:induction false} FragmentAsks(w: Window, h: Header, payload: Bytes, now: nat)
    requires Inv(w) && WellShaped(w)
    ensures var (w', out, _) := Insert(w, h, payload, now);
            && (out.needKey <==> w'.needKey && (!w.needKey || out.frames != []))
            && (out.needKey ==> w'.keyAsked == Some(now))
            && (w.needKey && out.frames == [] ==> w'.needKey && (w.keyAsked.Some? ==> w'.keyAsked == w.keyAsked))
  {
    if Accepted(w, h, now) {
      var w1 := Stored(w, h, payload, now).0;
      NoteAsks(w, h.frameId, IsKeyframe(h), now);
      StoredAsks(w, h, payload, now);
      StoredBase(w, h, payload, now);
      InsertAsks(w, h, payload, now);
      SettleAsks(w1, now);
      if NoteNewFrame(w, h.frameId, IsKeyframe(h), now).1.needKey {
        JumpLeavesNoKey(w, h, payload, now);
        ReleaseIdle(w1);
      }
    } else {
      InsertRefused(w, h, payload, now);
    }
  }

  /** With a keyframe awaited, frames held and none of them a keyframe, the interval since the last request is over. */
  predicate RepeatDue(w: Window, w': Window, now: nat) {
    w'.slots != map[] && !KeyInFlight(w') && w.keyAsked.Some? && now >= w.keyAsked.value + w.config.keyframeRetry
  }

  /** A poll asks exactly when it breaks the chain, or the time to repeat has come. */
  lemma {:induction false} PollAsks(w: Window, now: nat)
    requires Inv(w) && WellShaped(w)
    ensures var (w', out) := Poll(w, now);
            && (out.needKey <==> w'.needKey && (!w.needKey || RepeatDue(w, w', now)))
            && (out.needKey ==> w'.keyAsked == Some(now)) && (!out.needKey ==> w'.keyAsked == w.keyAsked)
            && (w.needKey ==> w'.needKey)
  {
    GiveUpAsks(w, now);
    NothingExpires(w, now);
    var w1 := GiveUpExpired(w, now).0;
    RequestBase(w1, now);
    var w2 := RequestMissing(w1, now).0;
    SameKeys(w2, Poll(w, now).0);
  }

  lemma {:induction false} SameKeys(w: Window, w': Window)
    requires w'.slots == w.slots
    ensures KeyInFlight(w') == KeyInFlight(w)
  {
  }

  lemma {:induction false} GiveUpAsks(w: Window, now: nat)
    requires Inv(w) && WellShaped(w)
    ensures var (w', out) := GiveUpExpired(w, now);
            && (out.needKey <==> w'.needKey && !w.needKey) && (w.needKey ==> w'.needKey) && w'.config == w.config
            && (out.needKey ==> w'.keyAsked == Some(now)) && (!out.needKey ==> w'.keyAsked == w.keyAsked)
  {
    if Expired(w, now) != {} { GiveUpInv(w, Greatest(Expired(w, now)), now); }
  }

  /** What makes a call ask: it leaves a keyframe awaited, and none was, or one went out within it, or it repeats. */
  predicate AsksNow(w: Window, e: Event, w': Window, out: Output) {
    && w'.needKey && !e.SkipAhead?
    && (!w.needKey || (e.Fragment? && out.frames != []) || (e.Tick? && RepeatDue(w, w', e.now)))
  }

  lemma {:induction false} StepAsksKey(w: Window, e: Event)
    requires Inv(w) && WellShaped(w)
    ensures var (w', out) := Step(w, e); out.needKey <==> AsksNow(w, e, w', out)
  {
    match e
    case Fragment(h, payload, now) => FragmentAsks(w, h, payload, now);
    case Tick(now) => PollAsks(w, now);
    case Rtt(rtt) =>
    case SkipAhead(now) =>
  }

  /**
   * After every run, a call asks for a keyframe exactly when it leaves one awaited and either none was
   * awaited before it, or it handed one out and broke the chain again, or it is time to ask again.
   */
  lemma {:induction false} AsksExactly(c: Config, es: seq<Event>, e: Event)
    ensures var w := Run(c, es).0; var (w', out) := Step(w, e); out.needKey <==> AsksNow(w, e, w', out)
  {
    StepAsksKey(Run(c, es).0, e);
  }

  /** So no call breaks the chain in silence, except a skip-ahead, whose caller asks for the keyframe. */
  lemma {:induction false} BreaksAreReported(c: Config, es: seq<Event>, e: Event)
    requires !e.SkipAhead? && !Run(c, es).0.needKey && Step(Run(c, es).0, e).0.needKey
    ensures Step(Run(c, es).0, e).1.needKey
  {
    AsksExactly(c, es, e);
  }

  // ---- how often ----

  function TimeOf(e: Event): nat {
    if e.Rtt? then 0 else e.now
  }

  /** While a keyframe is awaited and nothing goes out, only a repeat moves the clock, and only when it is due. */
  lemma {:induction false} ClockStep(w: Window, e: Event, t: nat)
    requires Inv(w) && WellShaped(w) && w.needKey && w.keyAsked == Some(t)
    requires !e.SkipAhead? && Step(w, e).1.frames == []
    ensures var (w', out) := Step(w, e);
            && w'.needKey && w'.keyAsked == Some(if out.needKey then TimeOf(e) else t)
            && (out.needKey ==> e.Tick? && e.now >= t + w.config.keyframeRetry)
  {
    match e
    case Fragment(h, payload, now) => FragmentAsks(w, h, payload, now);
    case Tick(now) => PollAsks(w, now);
    case Rtt(rtt) =>
    case SkipAhead(now) =>
  }

  lemma {:induction false} AskSetsClock(w: Window, e: Event)
    requires Inv(w) && WellShaped(w) && Step(w, e).1.needKey
    ensures Step(w, e).0.needKey && Step(w, e).0.keyAsked == Some(TimeOf(e)) && !e.Rtt? && !e.SkipAhead?
  {
    match e
    case Fragment(h, payload, now) => FragmentAsks(w, h, payload, now);
    case Tick(now) => PollAsks(w, now);
    case Rtt(rtt) =>
    case SkipAhead(now) =>
  }

  lemma {:induction false} RunConfig(c: Config, es: seq<Event>)
    ensures Run(c, es).0.config == c
  {
    if es != [] {
      RunConfig(c, es[..|es| - 1]);
      AtRequestsConfig(Run(c, es[..|es| - 1]).0, es[|es| - 1]);
    }
  }

  lemma {:induction false} RunLast(c: Config, es: seq<Event>)
    requires es != []
    ensures var (n, before) := (|es| - 1, Run(c, es[..|es| - 1]));
            && Run(c, es).0 == Step(before.0, es[n]).0 && Run(c, es).1[n] == Step(before.0, es[n]).1
            && forall k :: 0 <= k < n ==> Run(c, es).1[k] == before.1[k]
  {
  }

  /** The last call of a run that waits. */
  lemma {:induction false} ClockGoes(c: Config, es: seq<Event>, s: nat) returns (t: nat)
    requires es != [] && Run(c, es[..|es| - 1]).0.needKey && Run(c, es[..|es| - 1]).0.keyAsked == Some(s)
    requires var e := es[|es| - 1]; !e.SkipAhead? && Step(Run(c, es[..|es| - 1]).0, e).1.frames == []
    ensures Run(c, es).0.needKey && Run(c, es).0.keyAsked == Some(t)
    ensures t >= s && (!Step(Run(c, es[..|es| - 1]).0, es[|es| - 1]).1.needKey ==> t == s)
  {
    var (w, e) := (Run(c, es[..|es| - 1]).0, es[|es| - 1]);
    RunLast(c, es);
    RunConfig(c, es[..|es| - 1]);
    ClockStep(w, e, s);
    t := if Step(w, e).1.needKey then TimeOf(e) else s;
  }

  /** Nothing but polls and round-trip updates. */
  predicate Silent(es: seq<Event>) {
    forall k :: 0 <= k < |es| ==> es[k].Tick? || es[k].Rtt?
  }

  /**
   * The call starts the wait for a keyframe: it asks for one, its caller skips ahead and will ask, or its
   * fragment is the `first` of the stream and completes no frame that can be handed out.
   */
  ghost predicate StartsWait(w: Window, e: Event, first: bool)
    requires WellShaped(w)
  {
    || Step(w, e).1.needKey || e.SkipAhead?
    || (first && e.Fragment? && Validate(e.h).Ok? && Step(w, e).1.frames == [])
  }

  /** Call `i` started the wait, and since then nothing was handed out and no caller skipped ahead. */
  ghost predicate WaitsSince(c: Config, es: seq<Event>, i: nat) {
    i < |es|
    && var (n, w) := (|es| - 1, Run(c, es[..|es| - 1]).0);
       if i == n then StartsWait(w, es[n], Silent(es[..n]))
       else !es[n].SkipAhead? && Step(w, es[n]).1.frames == [] && WaitsSince(c, es[..n], i)
  }

  /** And since then none was asked for. */
  ghost predicate NotAskedSince(c: Config, es: seq<Event>, i: nat) {
    i + 1 < |es| ==> !Step(Run(c, es[..|es| - 1]).0, es[|es| - 1]).1.needKey && NotAskedSince(c, es[..|es| - 1], i)
  }

  lemma {:induction false} SilentIsNew(c: Config, es: seq<Event>)
    requires Silent(es)
    ensures var w := Run(c, es).0;
            w.slots == map[] && w.nextId.None? && w.highest.None? && w.needKey && w.keyAsked.None?
  {
    if es != [] {
      var before := es[..|es| - 1];
      SilentIsNew(c, before);
      RunLast(c, es);
      var (w, e) := (Run(c, before).0, es[|es| - 1]);
      if e.Tick? {
        NothingExpires(w, e.now);
        assert Expired(w, e.now) == {};
      }
    }
  }

  lemma {:induction false} FirstSets(w: Window, h: Header, payload: Bytes, now: nat)
    requires Inv(w) && WellShaped(w) && w.slots == map[] && w.nextId.None? && w.highest.None? && w.needKey
        && w.keyAsked.None?
    requires Validate(h).Ok? && Insert(w, h, payload, now).1.frames == []
    ensures Insert(w, h, payload, now).0.needKey && Insert(w, h, payload, now).0.keyAsked == Some(now)
  {
    FragmentAsks(w, h, payload, now);
    FirstFits(w, h, now);
    var w1 := Stored(w, h, payload, now).0;
    StoredAsks(w, h, payload, now);
    StoredBase(w, h, payload, now);
    InsertAsks(w, h, payload, now);
    SettleAsks(w1, now);
  }

  lemma {:induction false} FirstFits(w: Window, h: Header, now: nat)
    requires WellShaped(w) && w.slots == map[] && w.nextId.None? && w.highest.None? && Validate(h).Ok?
    ensures Accepted(w, h, now)
        && NoteNewFrame(w, h.frameId, IsKeyframe(h), now) == (NoteAsked(w, now).(highest := Some(h.frameId as nat)), NO_LOSS)
  {
    assert SlotFor(w, h.frameId, h.fragTotal) == Sized(UNKNOWN, h.fragTotal);
  }

  lemma {:induction false} WaitSetsClock(w: Window, e: Event)
    requires Inv(w) && WellShaped(w) && (Step(w, e).1.needKey || e.SkipAhead?)
    ensures Step(w, e).0.needKey && Step(w, e).0.keyAsked == Some(TimeOf(e))
  {
    if !e.SkipAhead? { AskSetsClock(w, e); }
  }

  lemma {:induction false} ClockStarts(c: Config, es: seq<Event>)
    requires es != [] && WaitsSince(c, es, |es| - 1)
    ensures Run(c, es).0.needKey && Run(c, es).0.keyAsked == Some(TimeOf(es[|es| - 1]))
  {
    var (n, e) := (|es| - 1, es[|es| - 1]);
    RunLast(c, es);
    var w := Run(c, es[..n]).0;
    if Step(w, e).1.needKey || e.SkipAhead? {
      WaitSetsClock(w, e);
    } else {
      SilentIsNew(c, es[..n]);
      FirstSets(w, e.h, e.payload, e.now);
    }
  }

  /** The clock was set at call `i`, or at a later request. */
  lemma {:induction false} ClockSince(c: Config, es: seq<Event>, i: nat) returns (t: nat)
    requires WaitsSince(c, es, i)
    ensures Run(c, es).0.needKey && Run(c, es).0.keyAsked == Some(t) && t >= TimeOf(es[i])
    ensures NotAskedSince(c, es, i) ==> t == TimeOf(es[i])
  {
    var n := |es| - 1;
    if i == n {
      ClockStarts(c, es);
      t := TimeOf(es[n]);
    } else {
      WaitGoesOn(c, es, i);
      var before := es[..n];
      assert before[i] == es[i];
      var s := ClockSince(c, before, i);
      t := ClockGoes(c, es, s);
    }
  }

  lemma {:induction false} WaitGoesOn(c: Config, es: seq<Event>, i: nat)
    requires WaitsSince(c, es, i) && i < |es| - 1
    ensures var (before, e) := (es[..|es| - 1], es[|es| - 1]); var out := Step(Run(c, before).0, e).1;
            && WaitsSince(c, before, i) && !e.SkipAhead? && out.frames == []
            && (NotAskedSince(c, es, i) ==> NotAskedSince(c, before, i) && !out.needKey)
  {
  }

  /** Until a keyframe goes out, the next request comes at least the configured interval after the wait began. */
  lemma {:induction false} AsksAreSpaced(c: Config, es: seq<Event>, e: Event, i: nat)
    requires WaitsSince(c, es, i)
    requires Step(Run(c, es).0, e).1.needKey && Step(Run(c, es).0, e).1.frames == [] && !e.SkipAhead?
    ensures e.Tick? && e.now >= TimeOf(es[i]) + c.keyframeRetry
  {
    var t := ClockSince(c, es, i);
    RunConfig(c, es);
    ClockStep(Run(c, es).0, e, t);
  }

  /** And once it is over a poll asks again, if it leaves frames held and none of them is a keyframe under way. */
  lemma {:induction false} AsksAgain(c: Config, es: seq<Event>, now: nat, i: nat)
    requires WaitsSince(c, es, i) && NotAskedSince(c, es, i) && now >= TimeOf(es[i]) + c.keyframeRetry
    requires var w' := Poll(Run(c, es).0, now).0; w'.slots != map[] && forall k :: k in w'.slots ==> !w'.slots[k].isKey
    ensures Poll(Run(c, es).0, now).1.needKey
  {
    var t := ClockSince(c, es, i);
    RunConfig(c, es);
    PollAsks(Run(c, es).0, now);
  }

  // ---- skipping ahead ----

  /**
   * A skip-ahead keeps the keyframes held and nothing else, and makes stale what is older than all of them,
   * but no frame newer than any seen.
   */
  lemma {:induction false} SkipAheadIs(c: Config, es: seq<Event>, now: nat, id: nat)
    ensures var (w, w') := (Run(c, es).0, Step(Run(c, es).0, SkipAhead(now)).0);
            && w'.needKey
            && (id in w'.slots <==> id in w.slots && w.slots[id].isKey)
            && (id in w'.slots ==> w'.slots[id] == w.slots[id])
            && (NotStale(w', id) <==>
                  && NotStale(w, id)
                  && (w.highest.Some? ==> id > w.highest.value || exists k :: k in w'.slots && k <= id))
  {
    var w := Run(c, es).0;
    assert id in w.slots ==> InRange(w, id);
    var w' := RequireKeyframe(w, now);
    if w.highest.Some? {
      SkipFloorIs(w'.slots, w.highest.value, id);
      assert w'.slots == Kept(w);
    }
  }

  lemma {:induction false} SkipFloorIs(slots: map<nat, Slot>, highest: nat, id: nat)
    ensures id >= SkipFloor(slots, highest) <==> id > highest || exists k :: k in slots && k <= id
  {
    if slots != map[] {
      LeastKey(slots);
      var least := Least(slots.Keys);
      assert least in slots;
      if k :| k in slots && k <= id { assert k in slots.Keys; }
    }
  }
}
