/** How long the window waits before it repeats a request and before it gives a frame up, and what it counts. */
module RequestTiming {
  import opened Prelude
  import opened Wire
  import opened Fragments
  import opened WindowModel
  import opened WindowSteps
  import opened WindowInvariant
  import opened WindowRuns
  import opened WindowTimers
  import opened WindowNacks
  import opened KeyRequests

  /** The call makes a pass over what to ask for. */
  predicate Passes(w: Window, e: Event)
    requires WellShaped(w)
  {
    e.Tick? || (e.Fragment? && Accepted(w, e.h, e.now))
  }

  // ---- the round trip the timers go by ----

  /** The last round trip reported, of at most half a second; 20 ms before the first. */
  function RoundTrip(es: seq<Event>): nat {
    if es == [] then 20_000_000
    else if es[|es| - 1].Rtt? then Min(es[|es| - 1].rtt, 500_000_000) else RoundTrip(es[..|es| - 1])
  }

  lemma {:induction false} SettleRtt(w: Window, now: nat)
    requires Base(w) && WellShaped(w)
    ensures Settle(w, now).0.rtt == w.rtt
  {
    ReleaseStage(w);
    RequestStage(Release(w).0, now);
    SettleStages(w, now);
    EnforceInv(RequestMissing(Release(w).0, now).0, now);
  }

  lemma {:induction false} StepRtt(w: Window, e: Event)
    requires Inv(w) && WellShaped(w)
    ensures Step(w, e).0.rtt == if e.Rtt? then Min(e.rtt, 500_000_000) else w.rtt
  {
    if e.Fragment? {
      if Accepted(w, e.h, e.now) {
        NoteRtt(w, e.h.frameId, IsKeyframe(e.h), e.now);
        StoredRtt(w, e.h, e.payload, e.now);
        StoredBase(w, e.h, e.payload, e.now);
        InsertAsks(w, e.h, e.payload, e.now);
        SettleRtt(Stored(w, e.h, e.payload, e.now).0, e.now);
      } else {
        InsertRefused(w, e.h, e.payload, e.now);
      }
    } else if e.Tick? && Expired(w, e.now) != {} {
      GiveUpInv(w, Greatest(Expired(w, e.now)), e.now);
    }
  }

  lemma {:induction false} RttIsLast(c: Config, es: seq<Event>)
    ensures Run(c, es).0.rtt == RoundTrip(es) <= 500_000_000
  {
    if es != [] {
      RttIsLast(c, es[..|es| - 1]);
      StepRtt(Run(c, es[..|es| - 1]).0, es[|es| - 1]);
      RunLast(c, es);
    }
  }

  // ---- when frame `id` was last asked for ----

  /** The time of the last call that asked for frame `id` since it was last added to the window. */
  ghost function LastSent(c: Config, es: seq<Event>, id: nat): Option<nat> {
    if es == [] then None
    else
      var w := Run(c, es[..|es| - 1]).0;
      var e := es[|es| - 1];
      if Asks(w, e, id) != [] then Some(TimeOf(e))
      else if id in w.slots then LastSent(c, es[..|es| - 1], id) else None
  }

  lemma {:induction false} SlotStamps(s: Slot, tailKnown: bool, due: bool, limit: nat, now: nat)
    requires Shaped(s)
    ensures var (r, ask) := RequestSlot(s, tailKnown, due, limit, now);
            r.lastNack == if ask.Some? then Some(now) else s.lastNack
  {
    if s.fragTotal.Some? { PartsAskIs(s, tailKnown, due, limit, now); }
  }

  lemma {:induction false} StepStamps(w: Window, e: Event, id: nat)
    requires Inv(w) && WellShaped(w) && id in Step(w, e).0.slots
    ensures Step(w, e).0.slots[id].lastNack == if Asks(w, e, id) != [] then Some(TimeOf(e)) else Before(w, id).lastNack
  {
    StepAsks(w, e, id);
    AfterRequests(w, e, id);
    AtRequestsCarries(w, e, id);
    var w1 := AtRequests(w, e);
    if Passes(w, e) {
      var s := w1.slots[id];
      assert Shaped(s);
      SlotStamps(s, TailKnown(w1, id), RetryDue(w1, s, e.now), w1.config.maxNackRounds, e.now);
    }
  }

  /** The slot's stamp is that time. */
  lemma {:induction false} StampIsLastSent(c: Config, es: seq<Event>, id: nat)
    requires id in Run(c, es).0.slots
    ensures Run(c, es).0.slots[id].lastNack == LastSent(c, es, id)
  {
    var before := es[..|es| - 1];
    var w := Run(c, before).0;
    StepStamps(w, es[|es| - 1], id);
    if id in w.slots { StampIsLastSent(c, before, id); }
  }

  // ---- what has been asked for ----

  /** The requests for frame `id` before this call, in its present stay. */
  ghost function SentBefore(c: Config, es: seq<Event>, id: nat): seq<seq<nat>> {
    if id in Run(c, es).0.slots then SentFor(c, es, id) else []
  }

  lemma {:induction false} SentGrows(c: Config, es: seq<Event>, id: nat)
    requires es != []
    ensures SentFor(c, es, id) ==
              SentBefore(c, es[..|es| - 1], id) + Asks(Run(c, es[..|es| - 1]).0, es[|es| - 1], id)
  {
  }

  /** The slot's marks say what the requests in `sent` asked for. */
  ghost predicate Named(s: Slot, sent: seq<seq<nat>>) {
    s.complete.None? ==>
      && (s.askedWhole <==> Wholes(sent) > 0)
      && forall k: nat :: (k < |s.asked| && s.asked[k]) <==> Namings(sent, k) > 0
  }

  lemma {:induction false} HolesNamed(s: Slot, missing: seq<nat>, retry: bool, now: nat, sent: seq<seq<nat>>)
    requires Named(s, sent) && forall i :: 0 <= i < |missing| ==> missing[i] < |s.asked|
    ensures var (r, ask) := RequestHoles(s, missing, retry, now); Named(r, sent + if ask.Some? then [ask.value] else [])
  {
    var (r, ask) := RequestHoles(s, missing, retry, now);
    if ask.None? {
      assert sent + [] == sent;
    } else {
      CountsAppend(sent, ask.value);
    }
  }

  lemma {:induction false} SlotNamed(s: Slot, tailKnown: bool, due: bool, limit: nat, now: nat, sent: seq<seq<nat>>)
    requires Shaped(s) && Named(s, sent) && (s.fragTotal.None? ==> s.asked == [])
    ensures var (r, ask) := RequestSlot(s, tailKnown, due, limit, now);
            Named(r, sent + if ask.Some? then [ask.value] else [])
  {
    assert sent + [] == sent;
    if s.fragTotal.Some? {
      PartsAskIs(s, tailKnown, due, limit, now);
      var missing := Missing(s, tailKnown);
      if missing != [] { HolesNamed(s, missing, due && s.nackRounds < limit, now, sent); }
    } else {
      CountsAppend(sent, []);
    }
  }

  lemma {:induction false} CarryNamed(s: Slot, r: Slot, sent: seq<seq<nat>>)
    requires Named(s, sent) && CountsCarry(s, r) && (s.fragTotal.None? ==> s.asked == [])
    ensures Named(r, sent)
  {
  }

  lemma {:induction false} StepNamed(w: Window, e: Event, id: nat, sent: seq<seq<nat>>)
    requires Inv(w) && WellShaped(w) && id in Step(w, e).0.slots && Named(Before(w, id), sent)
    ensures Named(Step(w, e).0.slots[id], sent + Asks(w, e, id))
  {
    StepAsks(w, e, id);
    AfterRequests(w, e, id);
    AtRequestsCarries(w, e, id);
    assert sent + [] == sent;
    var (w1, s) := (AtRequests(w, e), AtRequests(w, e).slots[id]);
    assert id in w.slots ==> SlotOk(id, w.slots[id]);
    CarryNamed(Before(w, id), s, sent);
    if Passes(w, e) {
      assert Shaped(s) && SlotOk(id, s);
      SlotNamed(s, TailKnown(w1, id), RetryDue(w1, s, e.now), w1.config.maxNackRounds, e.now, sent);
    }
  }

  lemma {:induction false} HeldNamed(c: Config, es: seq<Event>, id: nat)
    ensures Named(Before(Run(c, es).0, id), SentBefore(c, es, id))
  {
    if id in Run(c, es).0.slots {
      var before := es[..|es| - 1];
      HeldNamed(c, before, id);
      SentGrows(c, es, id);
      RunLast(c, es);
      StepNamed(Run(c, before).0, es[|es| - 1], id, SentBefore(c, before, id));
    }
  }

  // ---- repeats ----

  /** The request asks for something an earlier one did. */
  ghost predicate Repeats(sent: seq<seq<nat>>, ask: seq<nat>) {
    (ask == [] && Wholes(sent) > 0) || exists k: nat :: k in ask && Namings(sent, k) > 0
  }

  /** A slot marked as `sent` has it repeats something only when a retry is due. */
  lemma {:induction false} RepeatIsDue(id: nat, s: Slot, sent: seq<seq<nat>>, tailKnown: bool, due: bool,
                                       limit: nat, now: nat)
    requires SlotOk(id, s) && Shaped(s) && s.complete.None? && Named(s, sent)
    requires var ask := RequestSlot(s, tailKnown, due, limit, now).1; ask.Some? && Repeats(sent, ask.value)
    ensures due
  {
    if s.fragTotal.Some? {
      PartsAskIs(s, tailKnown, due, limit, now);
      MissingAre(id, s, tailKnown);
      if !due { NewIsNoRepeat(s, Missing(s, tailKnown), sent, now); }
    }
  }

  lemma {:induction false} NewIsNoRepeat(s: Slot, missing: seq<nat>, sent: seq<seq<nat>>, now: nat)
    requires (forall i :: 0 <= i < |missing| ==> missing[i] < |s.asked|)
    requires s.complete.None? && s.fragTotal.Some? && Named(s, sent)
    requires RequestHoles(s, missing, false, now).1.Some?
    ensures !Repeats(sent, RequestHoles(s, missing, false, now).1.value)
  {
    var ask := RequestHoles(s, missing, false, now).1.value;
    forall k: nat | k in ask ensures Namings(sent, k) == 0 {
      assert !s.asked[k];
    }
  }

  lemma {:induction false} NoteRtt(w: Window, f: nat, isKey: bool, now: nat)
    requires WellShaped(w)
    ensures NoteNewFrame(w, f, isKey, now).0.rtt == w.rtt
  {
  }

  lemma {:induction false} StoredRtt(w: Window, h: Header, payload: Bytes, now: nat)
    requires WellShaped(w) && Accepted(w, h, now)
    ensures Stored(w, h, payload, now).0.rtt == NoteNewFrame(w, h.frameId, IsKeyframe(h), now).0.rtt
  {
  }

  lemma {:induction false} RttStays(w: Window, e: Event)
    requires Inv(w) && WellShaped(w) && Passes(w, e)
    ensures AtRequests(w, e).rtt == w.rtt
  {
    if e.Fragment? {
      NoteRtt(w, e.h.frameId, IsKeyframe(e.h), e.now);
      StoredRtt(w, e.h, e.payload, e.now);
      ReleaseKeeps(Stored(w, e.h, e.payload, e.now).0);
    } else {
      NothingExpires(w, e.now);
    }
  }

  /** At the request pass of a call the slot is marked as what was sent before has it. */
  lemma {:induction false} PassNamed(c: Config, es: seq<Event>, e: Event, id: nat)
    requires id in AtRequests(Run(c, es).0, e).slots
    ensures var s := AtRequests(Run(c, es).0, e).slots[id];
            SlotOk(id, s) && Shaped(s) && Named(s, SentBefore(c, es, id))
  {
    var w := Run(c, es).0;
    var s := AtRequests(w, e).slots[id];
    HeldNamed(c, es, id);
    AtRequestsCarries(w, e, id);
    assert id in w.slots ==> SlotOk(id, w.slots[id]);
    CarryNamed(Before(w, id), s, SentBefore(c, es, id));
    assert SlotOk(id, s) && Shaped(s);
  }

  /** What a call asks about a frame is what the slot's turn asks. */
  lemma {:induction false} AsksAre(w: Window, e: Event, id: nat)
    requires Inv(w) && WellShaped(w) && Asks(w, e, id) != []
    ensures Passes(w, e) && id in AtRequests(w, e).slots && AtRequests(w, e).config == w.config
    ensures AtRequests(w, e).rtt == w.rtt
    ensures var (w1, s) := (AtRequests(w, e), AtRequests(w, e).slots[id]);
            && Shaped(s) && s.complete.None?
            && RequestSlot(s, TailKnown(w1, id), RetryDue(w1, s, e.now), w1.config.maxNackRounds, e.now).1
               == Some(Asks(w, e, id)[0])
  {
    StepAsks(w, e, id);
    RttStays(w, e);
    AtRequestsConfig(w, e);
    assert Shaped(AtRequests(w, e).slots[id]);
  }

  /**
   * A request repeats something only when, since the last one for the frame, one and a half round trips
   * and the configured slack have passed.
   */
  lemma {:induction false} RepeatsAreSpaced(c: Config, es: seq<Event>, e: Event, id: nat)
    requires var asks := Asks(Run(c, es).0, e, id); asks != [] && Repeats(SentBefore(c, es, id), asks[0])
    ensures var round := RoundTrip(es);
            && !e.Rtt? && !e.SkipAhead? && id in Run(c, es).0.slots && LastSent(c, es, id).Some?
            && e.now >= LastSent(c, es, id).value + round + round / 2 + c.retrySlack
  {
    var w := Run(c, es).0;
    var w1 := AtRequests(w, e);
    RttIsLast(c, es);
    AsksAre(w, e, id);
    PassNamed(c, es, e, id);
    RunConfig(c, es);
    var s := w1.slots[id];
    RepeatIsDue(id, s, SentBefore(c, es, id), TailKnown(w1, id), RetryDue(w1, s, e.now), c.maxNackRounds, e.now);
    AtRequestsCarries(w, e, id);
    if id in w.slots { StampIsLastSent(c, es, id); }
  }

  /** What frame slot `s` is known to lack: `m` lists its missing fragments, or is empty if its size is unknown. */
  ghost predicate ListsMissing(s: Slot, tailKnown: bool, m: seq<nat>)
    requires Shaped(s) && s.complete.None?
  {
    && Ascending(m)
    && (s.fragTotal.None? ==> m == [])
    && (s.fragTotal.Some? ==>
          forall k: nat :: k in m <==> k < s.fragTotal.value && s.fragments[k].None? && (tailKnown || k < s.highestFrag))
  }

  lemma {:induction false} RetryAsksAll(id: nat, s: Slot, tailKnown: bool, limit: nat, now: nat)
    requires SlotOk(id, s) && Shaped(s) && s.complete.None? && IsMissing(s, tailKnown) && s.nackRounds < limit
    ensures var ask := RequestSlot(s, tailKnown, true, limit, now).1; ask.Some? && ListsMissing(s, tailKnown, ask.value)
  {
    if s.fragTotal.Some? {
      PartsAskIs(s, tailKnown, true, limit, now);
      MissingAre(id, s, tailKnown);
    }
  }

  /**
   * When that time is over, a poll asks again for everything missing from a frame that it does not give up,
   * if rounds are left and neither an awaited keyframe nor a later one makes the frame useless.
   */
  lemma {:induction false} PollRepeats(c: Config, es: seq<Event>, now: nat, id: nat)
    requires var (w, w') := (Run(c, es).0, Poll(Run(c, es).0, now).0);
             && Abandoned(w, w') == {} && id in w.slots && w.slots[id].complete.None?
             && (forall k :: k in w.slots && k > id ==> !w.slots[k].isKey)
             && (!w.needKey || w.slots[id].isKey || w.slots[id].fragTotal.None?)
             && Shaped(w.slots[id]) && IsMissing(w.slots[id], TailKnown(w, id)) && w.slots[id].nackRounds < c.maxNackRounds
    requires var round := RoundTrip(es);
             LastSent(c, es, id).Some? && now >= LastSent(c, es, id).value + round + round / 2 + c.retrySlack
    ensures var w := Run(c, es).0; var asks := Asks(w, Tick(now), id);
            |asks| == 1 && ListsMissing(w.slots[id], TailKnown(w, id), asks[0])
  {
    var w := Run(c, es).0;
    RunConfig(c, es);
    RttIsLast(c, es);
    StampIsLastSent(c, es, id);
    PollGivesUp(w, now);
    AtTick(w, now);
    StepAsks(w, Tick(now), id);
    var s := w.slots[id];
    assert SlotOk(id, s);
    assert RetryDue(w, s, now);
    RetryAsksAll(id, s, TailKnown(w, id), c.maxNackRounds, now);
  }

  lemma {:induction false} AtTick(w: Window, now: nat)
    requires Inv(w) && WellShaped(w) && Expired(w, now) == {}
    ensures AtRequests(w, Tick(now)) == w
  {
  }

  // ---- everything missing is asked for ----

  /** Asked for in rounds while its size is unknown, a frame was asked for whole. */
  predicate WholeIfUnknown(s: Slot) {
    s.fragTotal.None? && s.nackRounds > 0 ==> s.askedWhole
  }

  lemma {:induction false} HeldAskedWhole(c: Config, es: seq<Event>, id: nat)
    requires c.maxNackRounds >= 1 && id in Run(c, es).0.slots
    ensures WholeIfUnknown(Run(c, es).0.slots[id])
  {
    RunTallied(c, es, id, 0xFFFF);
    assert SlotOk(id, Run(c, es).0.slots[id]);
  }

  /** Fragment `k` of held frame `id` is not here though it was sent: a later frame, or later fragment, is known. */
  predicate KnownMissing(w: Window, id: nat, k: nat)
    requires id in w.slots
  {
    var s := w.slots[id];
    k < |s.fragments| && s.fragments[k].None? && ((w.highest.Some? && id < w.highest.value) || k < s.highestFrag)
  }

  /**
   * Between calls, whatever is known to be missing from a frame that is still of use has been asked for in
   * its present stay: the whole frame if nothing of it is here, else each missing fragment.
   */
  lemma {:induction false} MissingIsAsked(c: Config, es: seq<Event>, id: nat)
    requires var w := Run(c, es).0;
             && id in w.slots && w.slots[id].complete.None? && (forall k :: k in w.slots && k > id ==> !w.slots[k].isKey)
             && (w.needKey ==> w.slots[id].isKey || w.slots[id].fragTotal.None?)
    ensures var s := Run(c, es).0.slots[id]; var sent := SentFor(c, es, id);
            && (s.fragTotal.None? && c.maxNackRounds >= 1 ==> Wholes(sent) > 0)
            && (forall k: nat :: KnownMissing(Run(c, es).0, id, k) ==> Namings(sent, k) > 0)
  {
    var w := Run(c, es).0;
    var s := w.slots[id];
    RunConfig(c, es);
    HeldNamed(c, es, id);
    assert SlotOk(id, s) && Shaped(s);
    if IsMissing(s, TailKnown(w, id)) {
      assert Chased(w, id);
      assert OnTheClock(w, id);
    }
    if s.fragTotal.None? {
      if c.maxNackRounds >= 1 { HeldAskedWhole(c, es, id); }
    } else {
      MissingAre(id, s, TailKnown(w, id));
      forall k: nat | KnownMissing(w, id, k) ensures Namings(SentFor(c, es, id), k) > 0 {
        assert k in Missing(s, TailKnown(w, id));
      }
    }
  }

  // ---- giving up ----

  /** At every step through `s` and `r` the slot has been missing something since `t`, or since `now`. */
  predicate SinceOr(s: Option<nat>, r: Option<nat>, now: nat) {
    r.Some? ==> r == s || r == Some(now)
  }

  lemma {:induction false} MarkSince(s: Slot, now: nat)
    requires Shaped(s)
    ensures SinceOr(s.missingSince, MarkTail(s, now).missingSince, now)
  {
  }

  lemma {:induction false} FillSince(w: Window, highest: nat, f: nat, now: nat, id: nat)
    requires id in FillGap(w, highest, f, now).slots
    ensures SinceOr(Before(w, id).missingSince, FillGap(w, highest, f, now).slots[id].missingSince, now)
  {
  }

  lemma {:induction false} NoteSince(w: Window, f: nat, isKey: bool, now: nat, id: nat)
    requires WellShaped(w) && id in NoteNewFrame(w, f, isKey, now).0.slots
    ensures SinceOr(Before(w, id).missingSince, NoteNewFrame(w, f, isKey, now).0.slots[id].missingSince, now)
  {
    var w0 := NoteAsked(w, now);
    if w0.highest.Some? && f > w0.highest.value {
      var highest := w0.highest.value;
      var w1 := MarkTails(w0, now).(highest := Some(f));
      if id in w.slots { MarkSince(w.slots[id], now); }
      assert SinceOr(Before(w, id).missingSince, Before(w1, id).missingSince, now);
      if f - highest - 1 == 0 {
      } else if f - highest - 1 > w.config.maxGap {
        DropCarries(w1, f, isKey, now, id);
      } else {
        FillSince(w1, highest, f, now, id);
      }
    }
  }

  lemma {:induction false} AcceptSince(w: Window, h: Header, payload: Bytes, id: nat)
    requires WellShaped(w)
    requires var slot := SlotFor(w, h.frameId, h.fragTotal); slot.complete.None? && h.fragId < |slot.fragments|
    requires id in Accept(w, SlotFor(w, h.frameId, h.fragTotal), h, payload).0.slots
    ensures var r := Accept(w, SlotFor(w, h.frameId, h.fragTotal), h, payload).0.slots[id];
            r.missingSince.Some? ==> id in w.slots && r.missingSince == w.slots[id].missingSince
  {
  }

  lemma {:induction false} SlotSince(s: Slot, tailKnown: bool, due: bool, limit: nat, now: nat)
    requires Shaped(s)
    ensures SinceOr(s.missingSince, RequestSlot(s, tailKnown, due, limit, now).0.missingSince, now)
  {
    if s.fragTotal.Some? { PartsAskIs(s, tailKnown, due, limit, now); }
  }

  lemma {:induction false} StoredSince(w: Window, h: Header, payload: Bytes, now: nat, id: nat)
    requires Base(w) && WellShaped(w) && Accepted(w, h, now) && id in Stored(w, h, payload, now).0.slots
    ensures SinceOr(if id in w.slots then w.slots[id].missingSince else None,
                    Stored(w, h, payload, now).0.slots[id].missingSince, now)
  {
    var w1 := NoteNewFrame(w, h.frameId, IsKeyframe(h), now).0;
    NoteKeepsShape(w, h.frameId, IsKeyframe(h), now);
    NoteBase(w, h.frameId, IsKeyframe(h), now);
    SlotForOpen(w1, h.frameId, h.fragTotal);
    AcceptSince(w1, h, payload, id);
    if id in w1.slots { NoteSince(w, h.frameId, IsKeyframe(h), now, id); }
  }

  lemma {:induction false} PassSince(w: Window, e: Event, id: nat)
    requires Inv(w) && WellShaped(w) && id in AtRequests(w, e).slots
    ensures SinceOr(if id in w.slots then w.slots[id].missingSince else None,
                    AtRequests(w, e).slots[id].missingSince, TimeOf(e))
  {
    if e.Fragment? && Accepted(w, e.h, e.now) {
      ReleaseKeeps(Stored(w, e.h, e.payload, e.now).0);
      StoredSince(w, e.h, e.payload, e.now, id);
    } else if e.Tick? && Expired(w, e.now) != {} {
      GiveUpInv(w, Greatest(Expired(w, e.now)), e.now);
    }
  }

  lemma {:induction false} StepSince(w: Window, e: Event, id: nat)
    requires Inv(w) && WellShaped(w) && id in Step(w, e).0.slots
    ensures SinceOr(if id in w.slots then w.slots[id].missingSince else None,
                    Step(w, e).0.slots[id].missingSince, TimeOf(e))
  {
    AfterRequests(w, e, id);
    if Passes(w, e) {
      var w1 := AtRequests(w, e);
      var s := w1.slots[id];
      assert Shaped(s);
      PassSince(w, e, id);
      SlotSince(s, TailKnown(w1, id), RetryDue(w1, s, e.now), w1.config.maxNackRounds, e.now);
    }
  }

  predicate HeldSince(w: Window, id: nat, t: nat) {
    id in w.slots && w.slots[id].missingSince == Some(t)
  }

  /** Frame `id` has been held, and missing something since `t`, after every call from `i` on, which was made at `t`. */
  ghost predicate MissingFrom(c: Config, es: seq<Event>, id: nat, t: nat, i: nat) {
    && i < |es| && HeldSince(Run(c, es).0, id, t)
    && if i == |es| - 1 then TimeOf(es[i]) == t else MissingFrom(c, es[..|es| - 1], id, t, i)
  }

  /** The stamp of a slot is the time of a call since which its frame has been missing something. */
  lemma {:induction false} MissingSinceIs(c: Config, es: seq<Event>, id: nat, t: nat) returns (i: nat)
    requires HeldSince(Run(c, es).0, id, t)
    ensures MissingFrom(c, es, id, t, i)
  {
    assert es != [];
    var before := es[..|es| - 1];
    RunLast(c, es);
    StepSince(Run(c, before).0, es[|es| - 1], id);
    if HeldSince(Run(c, before).0, id, t) {
      i := MissingSinceIs(c, before, id, t);
    } else {
      i := |es| - 1;
    }
  }

  /** The frames a call stops holding although they are incomplete. */
  ghost function Abandoned(w: Window, w': Window): set<nat> {
    set id | id in w.slots && w.slots[id].complete.None? && id !in w'.slots
  }

  lemma {:induction false} GiveUpIs(w: Window, now: nat)
    requires Inv(w) && WellShaped(w) && Expired(w, now) != {}
    ensures var (w', out) := GiveUpExpired(w, now);
            && WellShaped(w') && out.lost == |LostBelow(w, Greatest(Expired(w, now)) + 1)|
            && forall id :: id in w'.slots <==> id in w.slots && id > Greatest(Expired(w, now))
  {
    GiveUpInv(w, Greatest(Expired(w, now)), now);
  }

  lemma {:induction false} PollAfter(w: Window, now: nat)
    requires WellShaped(w) && WellShaped(GiveUpExpired(w, now).0)
    ensures Poll(w, now).1.lost == GiveUpExpired(w, now).1.lost
    ensures Poll(w, now).0.slots.Keys == GiveUpExpired(w, now).0.slots.Keys
  {
  }

  /** What a poll keeps is what it has after giving up. */
  lemma {:induction false} PollKeeps(w: Window, now: nat) returns (w1: Window)
    requires Inv(w) && WellShaped(w)
    ensures Poll(w, now).0.slots.Keys == w1.slots.Keys
    ensures if Expired(w, now) == {} then w1 == w && Poll(w, now).1.lost == 0
            else
              && Poll(w, now).1.lost == |LostBelow(w, Greatest(Expired(w, now)) + 1)|
              && forall id :: id in w1.slots <==> id in w.slots && id > Greatest(Expired(w, now))
  {
    NothingExpires(w, now);
    w1 := GiveUpExpired(w, now).0;
    if Expired(w, now) != {} { GiveUpIs(w, now); }
    PollAfter(w, now);
  }

  /** All of `late` is given up; and nothing is, or else what is ends with the newest of `late`. */
  ghost predicate GivesUpTo(gone: set<nat>, late: set<nat>) {
    late <= gone && (gone != {} ==> late != {} && Greatest(late) in gone && forall id :: id in gone ==> id <= Greatest(late))
  }

  lemma {:induction false} LatestGoes(w: Window, now: nat)
    requires WellShaped(w) && Expired(w, now) != {}
    ensures GivesUpTo(LostBelow(w, Greatest(Expired(w, now)) + 1), Expired(w, now))
  {
    assert IsGreatest(Greatest(Expired(w, now)), Expired(w, now));
  }

  /** A poll gives up the frames that have expired, and whatever is before them. */
  lemma {:induction false} PollGivesUp(w: Window, now: nat)
    requires Inv(w) && WellShaped(w)
    ensures var (w', out) := Poll(w, now);
            out.lost == |Abandoned(w, w')| && GivesUpTo(Abandoned(w, w'), Expired(w, now))
  {
    var w1 := PollKeeps(w, now);
    var (w', out) := Poll(w, now);
    GoneIs(w, w1, w', out.lost, now);
  }

  lemma {:induction false} GoneIs(w: Window, w1: Window, w': Window, lost: nat, now: nat)
    requires WellShaped(w) && w'.slots.Keys == w1.slots.Keys
    requires if Expired(w, now) == {} then w1 == w && lost == 0
             else
               && lost == |LostBelow(w, Greatest(Expired(w, now)) + 1)|
               && forall id :: id in w1.slots <==> id in w.slots && id > Greatest(Expired(w, now))
    ensures lost == |Abandoned(w, w')| && GivesUpTo(Abandoned(w, w'), Expired(w, now))
  {
    if Expired(w, now) == {} {
      NoneAbandoned(w, w');
    } else {
      KeptAbove(w, w1, w', Greatest(Expired(w, now)));
      LatestGoes(w, now);
    }
  }

  lemma {:induction false} NoneAbandoned(w: Window, w': Window)
    requires w'.slots.Keys == w.slots.Keys
    ensures Abandoned(w, w') == {}
  {
    assert forall id :: id in w.slots ==> id in w'.slots.Keys;
  }

  lemma {:induction false} KeptAbove(w: Window, w1: Window, w': Window, g: nat)
    requires w'.slots.Keys == w1.slots.Keys && forall id :: id in w1.slots <==> id in w.slots && id > g
    ensures Abandoned(w, w') == LostBelow(w, g + 1)
  {
    assert forall id :: id in w'.slots <==> id in w1.slots.Keys;
  }

  /**
   * No frame is given up in time of trouble alone: what a poll gives up ends with a frame that has been
   * missing something for two round trips and the configured slack.
   */
  lemma {:induction false} GivenUpLate(c: Config, es: seq<Event>, now: nat) returns (id: nat, t: nat, i: nat)
    requires var w := Run(c, es).0; Abandoned(w, Poll(w, now).0) != {}
    ensures var w := Run(c, es).0; var gone := Abandoned(w, Poll(w, now).0);
            && id in gone && (forall j :: j in gone ==> j <= id) && (forall k :: k in w.slots && k > id ==> !w.slots[k].isKey)
            && MissingFrom(c, es, id, t, i) && now >= t + 2 * RoundTrip(es) + c.giveUpSlack
  {
    var w := Run(c, es).0;
    PollGivesUp(w, now);
    id := Greatest(Expired(w, now));
    t := w.slots[id].missingSince.value;
    i := MissingSinceIs(c, es, id, t);
    RunConfig(c, es);
    RttIsLast(c, es);
  }

  /** And what has been missing for so long, with no keyframe held to replace it, is given up. */
  lemma {:induction false} LateIsGivenUp(c: Config, es: seq<Event>, now: nat, id: nat, t: nat)
    requires var w := Run(c, es).0;
             && HeldSince(w, id, t) && w.slots[id].complete.None?
             && (forall k :: k in w.slots && k > id ==> !w.slots[k].isKey)
             && Shaped(w.slots[id]) && IsMissing(w.slots[id], TailKnown(w, id))
             && now >= t + 2 * RoundTrip(es) + c.giveUpSlack
    ensures var w := Run(c, es).0; id in Abandoned(w, Poll(w, now).0)
  {
    var w := Run(c, es).0;
    RunConfig(c, es);
    RttIsLast(c, es);
    PollGivesUp(w, now);
    assert id in Expired(w, now);
  }

  // ---- when the time to give up starts ----

  lemma {:induction false} SlotStaysDated(id: nat, s: Slot, due: bool, limit: nat, now: nat)
    requires SlotOk(id, s) && Shaped(s) && s.complete.None? && s.missingSince.Some?
    ensures RequestSlot(s, true, due, limit, now).0.missingSince == s.missingSince
  {
    if s.fragTotal.Some? {
      PartsAskIs(s, true, due, limit, now);
      LacksSome(id, s);
    }
  }

  lemma {:induction false} LacksSome(id: nat, s: Slot)
    requires SlotOk(id, s) && Shaped(s) && s.complete.None?
    ensures IsMissing(s, true)
  {
    if s.fragTotal.Some? && Missing(s, true) == [] {
      forall k: nat | k < |s.fragments| ensures s.fragments[k].Some? { assert k !in Missing(s, true); }
      ArrivedAll(s.fragments);
    }
  }

  lemma {:induction false} MarkDates(id: nat, s: Slot, now: nat)
    requires SlotOk(id, s) && Shaped(s) && s.complete.None?
    ensures MarkTail(s, now).missingSince == Some(GetOr(s.missingSince, now))
  {
    LacksSome(id, s);
  }

  lemma {:induction false} NoteDates(w: Window, f: nat, isKey: bool, now: nat, id: nat)
    requires WellShaped(w) && w.highest.Some? && id <= w.highest.value < f
    requires id in w.slots && id in NoteNewFrame(w, f, isKey, now).0.slots
    ensures NoteNewFrame(w, f, isKey, now).0.slots[id] == MarkTail(w.slots[id], now)
  {
    var w0 := NoteAsked(w, now);
    var (highest, w1) := (w0.highest.value, MarkTails(w0, now).(highest := Some(f)));
    assert w1.slots[id] == MarkTail(w.slots[id], now);
    if highest + 1 < f <= highest + 1 + w.config.maxGap {
      FillLeaves(w1, highest, f, now, id);
    }
  }

  lemma {:induction false} FillLeaves(w: Window, highest: nat, f: nat, now: nat, id: nat)
    requires id in w.slots && id <= highest
    ensures FillGap(w, highest, f, now).slots[id] == w.slots[id]
  {
  }

  lemma {:induction false} StoredDates(w: Window, h: Header, payload: Bytes, now: nat, id: nat)
    requires WellShaped(w) && Accepted(w, h, now) && w.highest.Some? && id <= w.highest.value < h.frameId
    requires id in w.slots && id in Stored(w, h, payload, now).0.slots
    ensures var w' := Stored(w, h, payload, now).0;
            w'.slots[id] == MarkTail(w.slots[id], now) && TailKnown(w', id)
  {
    NoteKeepsShape(w, h.frameId, IsKeyframe(h), now);
    var w1 := NoteNewFrame(w, h.frameId, IsKeyframe(h), now).0;
    AcceptLeaves(w1, h, payload, id);
    NoteDates(w, h.frameId, IsKeyframe(h), now, id);
    NoteRaises(w, h.frameId, IsKeyframe(h), now);
  }

  lemma {:induction false} AcceptLeaves(w: Window, h: Header, payload: Bytes, id: nat)
    requires WellShaped(w) && h.fragId < h.fragTotal && Fits(w, h) && id != h.frameId
    ensures var w' := Accept(w, SlotFor(w, h.frameId, h.fragTotal), h, payload).0;
            w'.highest == w.highest && (id in w'.slots <==> id in w.slots) && (id in w.slots ==> w'.slots[id] == w.slots[id])
  {
  }

  lemma {:induction false} NoteRaises(w: Window, f: nat, isKey: bool, now: nat)
    requires WellShaped(w) && w.highest.Some? && w.highest.value < f
    ensures NoteNewFrame(w, f, isKey, now).0.highest == Some(f)
  {
  }

  /**
   * A fragment of a frame newer than any seen proves that every incomplete frame held lacks something:
   * from then on, if not before, the time to give it up runs, whether or not it is asked for.
   */
  lemma {:induction false} NewerFrameStartsClocks(c: Config, es: seq<Event>, h: Header, payload: Bytes,
                                                  now: nat, id: nat)
    requires var w := Run(c, es).0;
             && Accepted(w, h, now) && w.highest.Some? && h.frameId > w.highest.value
             && id in w.slots && w.slots[id].complete.None? && id in Insert(w, h, payload, now).0.slots
    ensures var w := Run(c, es).0;
            HeldSince(Insert(w, h, payload, now).0, id, GetOr(w.slots[id].missingSince, now))
  {
    var w := Run(c, es).0;
    assert InRange(w, id) && SlotOk(id, w.slots[id]) && Shaped(w.slots[id]);
    var w1 := Stored(w, h, payload, now).0;
    StoredBase(w, h, payload, now);
    InsertAsks(w, h, payload, now);
    SettleSlots(w1, now, id);
    ReleaseKeeps(w1);
    StoredDates(w, h, payload, now, id);
    var s := w1.slots[id];
    MarkDates(id, w.slots[id], now);
    assert SlotOk(id, s) && Shaped(s);
    var w2 := Release(w1).0;
    SlotStaysDated(id, s, RetryDue(w2, s, now), w2.config.maxNackRounds, now);
  }

  // ---- what counts as recovered ----

  /** A slot's counters say whether anything was asked for it. */
  predicate ShowsAsked(s: Slot, sent: seq<seq<nat>>) {
    NeededResend(s) <==> sent != []
  }

  lemma {:induction false} SlotShows(s: Slot, tailKnown: bool, due: bool, limit: nat, now: nat)
    requires Shaped(s)
    ensures var (r, ask) := RequestSlot(s, tailKnown, due, limit, now); NeededResend(r) <==> NeededResend(s) || ask.Some?
  {
    if s.fragTotal.Some? { PartsAskIs(s, tailKnown, due, limit, now); }
  }

  lemma {:induction false} StepShows(w: Window, e: Event, id: nat)
    requires Inv(w) && WellShaped(w) && id in Step(w, e).0.slots
    ensures NeededResend(Step(w, e).0.slots[id]) <==> NeededResend(Before(w, id)) || Asks(w, e, id) != []
  {
    StepAsks(w, e, id);
    AfterRequests(w, e, id);
    AtRequestsCarries(w, e, id);
    if Passes(w, e) {
      var (w1, s) := (AtRequests(w, e), AtRequests(w, e).slots[id]);
      assert Shaped(s);
      SlotShows(s, TailKnown(w1, id), RetryDue(w1, s, e.now), w1.config.maxNackRounds, e.now);
    }
  }

  /** A held slot's counters show whether anything was asked for it in its present stay. */
  lemma {:induction false} HeldShows(c: Config, es: seq<Event>, id: nat)
    ensures ShowsAsked(Before(Run(c, es).0, id), SentBefore(c, es, id))
  {
    if id in Run(c, es).0.slots {
      var before := es[..|es| - 1];
      HeldShows(c, before, id);
      SentGrows(c, es, id);
      RunLast(c, es);
      StepShows(Run(c, before).0, es[|es| - 1], id);
    }
  }

  lemma {:induction false} StoredArrives(w: Window, h: Header, payload: Bytes, now: nat)
    requires Base(w) && WellShaped(w) && Accepted(w, h, now) && Stored(w, h, payload, now).1 != []
    ensures var arrived := Stored(w, h, payload, now).1;
            && |arrived| == 1 && arrived[0].frameId == h.frameId
            && (arrived[0].recovered <==> NeededResend(Before(w, h.frameId)))
  {
    StoredCarries(w, h, payload, now, h.frameId);
  }

  lemma {:induction false} InsertArrives(w: Window, h: Header, payload: Bytes, now: nat)
    requires Base(w) && WellShaped(w) && Accepted(w, h, now)
    ensures Insert(w, h, payload, now).1.arrived == Stored(w, h, payload, now).1
  {
  }

  /** A frame is reported as recovered exactly when a request was sent for it while it was held. */
  lemma {:induction false} RecoveredIff(c: Config, es: seq<Event>, e: Event, k: nat)
    requires k < |Step(Run(c, es).0, e).1.arrived|
    ensures var a := Step(Run(c, es).0, e).1.arrived[k];
            k == 0 && e.Fragment? && a.frameId == e.h.frameId && (a.recovered <==> SentBefore(c, es, a.frameId) != [])
  {
    var w := Run(c, es).0;
    if e.Fragment? {
      if Accepted(w, e.h, e.now) {
        InsertArrives(w, e.h, e.payload, e.now);
        StoredArrives(w, e.h, e.payload, e.now);
        HeldShows(c, es, e.h.frameId);
      } else {
        InsertRefused(w, e.h, e.payload, e.now);
      }
    } else if e.Tick? {
      PollInv(w, e.now);
    }
  }

  // ---- what is counted ----

  /** A jump too long to recover, by a frame that is no keyframe, loses every incomplete frame held. */
  predicate JumpsAway(w: Window, h: Header) {
    w.highest.Some? && h.frameId > w.highest.value && h.frameId - w.highest.value - 1 > w.config.maxGap && !IsKeyframe(h)
  }

  ghost function Incomplete(w: Window): set<nat> {
    set id | id in w.slots && w.slots[id].complete.None?
  }

  lemma {:induction false} AllBelow(w: Window, w1: Window, f: nat, now: nat)
    requires Inv(w) && WellShaped(w) && w.highest.Some? && f > w.highest.value
    requires w1 == MarkTails(NoteAsked(w, now), now).(highest := Some(f))
    ensures LostBelow(w1, f) == Incomplete(w)
  {
    assert forall id :: id in w.slots ==> InRange(w, id);
  }

  /** Noting a frame loses every incomplete frame on a jump too long, and none otherwise. */
  lemma {:induction false} NoteLoses(w: Window, h: Header, now: nat)
    requires Inv(w) && WellShaped(w)
    ensures NoteNewFrame(w, h.frameId, IsKeyframe(h), now).1.lost == if JumpsAway(w, h) then |Incomplete(w)| else 0
  {
    if JumpsAway(w, h) {
      var f: nat := h.frameId;
      AllBelow(w, MarkTails(NoteAsked(w, now), now).(highest := Some(f)), f, now);
    }
  }

  lemma {:induction false} EnforceLoses(w: Window, now: nat)
    requires Base(w) && Released(w) && WellShaped(w) && Requested(w)
    ensures EnforceCapacity(w, now).1.lost == |Abandoned(w, EnforceCapacity(w, now).0)|
    decreases w.slots.Keys
  {
    if |w.slots| > w.config.maxHeld {
      assert w.slots.Keys != {};
      var oldest := Least(w.slots.Keys);
      GiveUpKeeps(w, oldest, now);
      GiveUpInv(w, oldest, now);
      var w1 := GiveUpThrough(w, oldest, now).0;
      EnforceLoses(w1, now);
      EnforceInv(w1, now);
      LossesAdd(w, w1, EnforceCapacity(w1, now).0, oldest);
    } else {
      assert Abandoned(w, w) == {};
    }
  }

  lemma {:induction false} LossesAdd(w: Window, w1: Window, w2: Window, oldest: nat)
    requires forall id :: id in w1.slots <==> id in w.slots && id > oldest
    requires forall id :: id in w1.slots ==> w1.slots[id] == w.slots[id]
    requires forall id :: id in w2.slots ==> id in w1.slots
    ensures |Abandoned(w, w2)| == |LostBelow(w, oldest + 1)| + |Abandoned(w1, w2)|
  {
    assert Abandoned(w, w2) == LostBelow(w, oldest + 1) + Abandoned(w1, w2);
    assert LostBelow(w, oldest + 1) !! Abandoned(w1, w2);
  }

  /** With one more than fits, the oldest frame goes, and what follows is as for a window without it. */
  lemma {:induction false} OldestGoes(w: Window, now: nat) returns (oldest: nat, w1: Window)
    requires Base(w) && Released(w) && WellShaped(w) && Requested(w) && |w.slots| > w.config.maxHeld
    ensures IsLeast(oldest, w.slots.Keys) && w1.slots.Keys == w.slots.Keys - {oldest} && w1.slots.Keys < w.slots.Keys
    ensures w1.config == w.config && Base(w1) && Released(w1) && WellShaped(w1) && Requested(w1)
    ensures EnforceCapacity(w, now).0 == EnforceCapacity(w1, now).0
  {
    assert w.slots.Keys != {};
    oldest := Least(w.slots.Keys);
    GiveUpKeeps(w, oldest, now);
    GiveUpInv(w, oldest, now);
    w1 := GiveUpThrough(w, oldest, now).0;
    OnlyOldest(w, oldest, w1);
  }

  lemma {:induction false} OnlyOldest(w: Window, oldest: nat, w1: Window)
    requires IsLeast(oldest, w.slots.Keys) && forall id :: id in w1.slots <==> id in w.slots && id > oldest
    ensures w1.slots.Keys == w.slots.Keys - {oldest} && w1.slots.Keys < w.slots.Keys
  {
    forall id ensures id in w1.slots.Keys <==> id in w.slots.Keys - {oldest} {
      assert id in w.slots ==> id in w.slots.Keys;
    }
  }

  /** Keeping within bounds gives up the oldest frames, and no more of them than it must. */
  predicate KeepsNewest(all: set<nat>, kept: set<nat>, most: nat) {
    |kept| == Min(|all|, most) && kept <= all && forall id, k :: id in all && id !in kept && k in kept ==> id < k
  }

  lemma {:induction false} KeepsNewestOf(all: set<nat>, oldest: nat, kept: set<nat>, most: nat)
    requires IsLeast(oldest, all) && |all| > most && KeepsNewest(all - {oldest}, kept, most)
    ensures KeepsNewest(all, kept, most)
  {
    forall id, k | id in all && id !in kept && k in kept ensures id < k {
      if id != oldest { assert id in all - {oldest}; }
    }
  }

  lemma {:induction false} EnforceKeepsNewest(w: Window, now: nat)
    requires Base(w) && Released(w) && WellShaped(w) && Requested(w)
    ensures KeepsNewest(w.slots.Keys, EnforceCapacity(w, now).0.slots.Keys, w.config.maxHeld)
    decreases w.slots.Keys
  {
    if |w.slots| > w.config.maxHeld {
      var oldest, w1 := OldestGoes(w, now);
      EnforceKeepsNewest(w1, now);
      KeepsNewestOf(w.slots.Keys, oldest, EnforceCapacity(w1, now).0.slots.Keys, w.config.maxHeld);
    }
  }

  lemma {:induction false} SameAbandoned(w: Window, w1: Window, w': Window)
    requires SameFrames(w, w1)
    ensures Abandoned(w, w') == Abandoned(w1, w')
  {
  }

  lemma {:induction false} SettleLoses(w: Window, now: nat)
    requires Base(w) && WellShaped(w)
    ensures var (w', out) := Settle(w, now); var w1 := Release(w).0;
            out.lost == |Abandoned(w1, w')| && KeepsNewest(w1.slots.Keys, w'.slots.Keys, w.config.maxHeld)
  {
    ReleaseStage(w);
    var w1 := Release(w).0;
    RequestStage(w1, now);
    SettleStages(w, now);
    var w2 := RequestMissing(w1, now).0;
    EnforceLoses(w2, now);
    EnforceKeepsNewest(w2, now);
    SettleLost(w, now);
    SameAbandoned(w1, w2, Settle(w, now).0);
  }

  lemma {:induction false} SettleLost(w: Window, now: nat)
    requires WellShaped(w)
    ensures WellShaped(Release(w).0)
    ensures Settle(w, now).1.lost == EnforceCapacity(RequestMissing(Release(w).0, now).0, now).1.lost
  {
    ReleaseKeeps(w);
  }

  /**
   * A fragment loses what a jump too long makes unrecoverable, and the oldest incomplete frames when more
   * are held than the configuration allows, no more of them than that.
   */
  lemma {:induction false} FragmentLoses(w: Window, h: Header, payload: Bytes, now: nat)
    requires Inv(w) && WellShaped(w)
    ensures !Accepted(w, h, now) ==> Insert(w, h, payload, now).1.lost == 0
    ensures Accepted(w, h, now) ==>
              var (w', out, _) := Insert(w, h, payload, now); var held := Release(Stored(w, h, payload, now).0).0;
              && out.lost == (if JumpsAway(w, h) then |Incomplete(w)| else 0) + |Abandoned(held, w')|
              && KeepsNewest(held.slots.Keys, w'.slots.Keys, w.config.maxHeld)
  {
    if Accepted(w, h, now) {
      var w1 := Stored(w, h, payload, now).0;
      NoteLoses(w, h, now);
      StoredBase(w, h, payload, now);
      StoredAsks(w, h, payload, now);
      InsertAsks(w, h, payload, now);
      InsertLost(w, h, payload, now);
      SettleLoses(w1, now);
    } else {
      InsertRefused(w, h, payload, now);
    }
  }

  lemma {:induction false} InsertLost(w: Window, h: Header, payload: Bytes, now: nat)
    requires WellShaped(w) && Accepted(w, h, now)
    ensures Insert(w, h, payload, now).1.lost ==
              NoteNewFrame(w, h.frameId, IsKeyframe(h), now).1.lost + Settle(Stored(w, h, payload, now).0, now).1.lost
  {
  }

  // ---- the running count ----

  function Total(outs: seq<Output>): nat {
    if outs == [] then 0 else Total(outs[..|outs| - 1]) + outs[|outs| - 1].lost
  }

  lemma {:induction false} EnforceCount(w: Window, now: nat)
    ensures EnforceCapacity(w, now).0.lost == w.lost + EnforceCapacity(w, now).1.lost
    decreases w.slots.Keys
  {
    if |w.slots| > w.config.maxHeld {
      var oldest := Least(w.slots.Keys);
      GiveUpKeeps(w, oldest, now);
      GiveUpCount(w, oldest, now);
      EnforceCount(GiveUpThrough(w, oldest, now).0, now);
    }
  }

  lemma {:induction false} GiveUpCount(w: Window, id: nat, now: nat)
    ensures GiveUpThrough(w, id, now).0.lost == w.lost + GiveUpThrough(w, id, now).1.lost
  {
    var lost := |LostBelow(w, id + 1)|;
    var dropped := DropBelow(w, id + 1);
    ReleaseKeeps(BreakChain(dropped.(lost := dropped.lost + lost), id + 1, now));
  }

  lemma {:induction false} StoredCount(w: Window, h: Header, payload: Bytes, now: nat)
    requires WellShaped(w) && Accepted(w, h, now)
    ensures Stored(w, h, payload, now).0.lost == w.lost + NoteNewFrame(w, h.frameId, IsKeyframe(h), now).1.lost
  {
  }

  lemma {:induction false} StepCount(w: Window, e: Event)
    requires Inv(w) && WellShaped(w)
    ensures Step(w, e).0.lost == w.lost + Step(w, e).1.lost
  {
    match e
    case Fragment(h, payload, now) =>
      if Accepted(w, h, now) {
        var w1 := Stored(w, h, payload, now).0;
        StoredCount(w, h, payload, now);
        InsertLost(w, h, payload, now);
        InsertAsks(w, h, payload, now);
        SettleLost(w1, now);
        ReleaseKeeps(w1);
        EnforceCount(RequestMissing(Release(w1).0, now).0, now);
      } else {
        InsertRefused(w, h, payload, now);
      }
    case Tick(now) =>
      if Expired(w, now) != {} { GiveUpCount(w, Greatest(Expired(w, now)), now); }
    case Rtt(rtt) =>
    case SkipAhead(now) =>
  }

  /** The window's count of lost frames is the sum of what its calls reported. */
  lemma {:induction false} LossesAreReported(c: Config, es: seq<Event>)
    ensures Run(c, es).0.lost == Total(Run(c, es).1)
  {
    if es != [] {
      var before := Run(c, es[..|es| - 1]);
      LossesAreReported(c, es[..|es| - 1]);
      StepCount(before.0, es[|es| - 1]);
      RunLast(c, es);
      assert Run(c, es).1[..|es| - 1] == before.1;
    }
  }
}
