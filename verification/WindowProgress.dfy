/**
 * No silent stall: a held frame is always waited for with a deadline, or is the newest frame still
 * arriving in order. The one way out of this is characterised exactly.
 */
module WindowProgress {
  import opened Prelude
  import opened Wire
  import opened Fragments
  import opened WindowModel
  import opened WindowSteps
  import opened WindowInvariant
  import opened WindowRuns
  import opened WindowTimers

  /** The newest frame seen is held incomplete and has received exactly its fragments `0..=highestFrag`. */
  predicate NewestArriving(w: Window) {
    w.highest.Some? && w.highest.value in w.slots && Prefixed(w.slots[w.highest.value])
  }

  /** Frames are held, yet nothing will ever time out and nothing is still arriving. */
  predicate Stalled(w: Window)
    requires WellShaped(w)
  {
    w.slots != map[] && Deadlines(w) == {} && !NewestArriving(w)
  }

  /** An incomplete slot with exactly its fragments `0..=highestFrag`. */
  predicate Prefixed(s: Slot) {
    && s.complete.None? && s.fragTotal.Some? && |s.fragments| == s.fragTotal.value
    && s.highestFrag < s.fragTotal.value
    && forall i :: 0 <= i < |s.fragments| ==> (s.fragments[i].Some? <==> i <= s.highestFrag)
  }

  lemma {:induction false} NoHoles(t: Table, limit: nat)
    requires limit <= |t| && Holes(t, limit) == []
    ensures forall i :: 0 <= i < limit ==> t[i].Some?
  {
    assert forall i :: 0 <= i < limit && t[i].None? ==> i in Holes(t, limit);
  }

  /** An incomplete slot that misses nothing known to have been sent has a prefix, and its tail is not known. */
  lemma {:induction false} NothingMissing(id: nat, s: Slot, tailKnown: bool)
    requires SlotOk(id, s) && Shaped(s) && s.complete.None? && !IsMissing(s, tailKnown)
    ensures !tailKnown && Prefixed(s)
  {
    NoHoles(s.fragments, KnownUpTo(s, tailKnown));
    ArrivedAll(s.fragments);
  }

  lemma {:induction false} MissingIsWatched(w: Window, id: nat)
    requires Inv(w) && WellShaped(w) && id in w.slots && Chased(w, id)
    ensures Deadlines(w) != {}
  {
    assert OnTheClock(w, id);
    GiveUpDeadline(w, id);
  }

  lemma {:induction false} ArrivingIsNewest(w: Window, id: nat)
    requires Inv(w) && WellShaped(w) && id in w.slots && w.slots[id].complete.None?
    requires !IsMissing(w.slots[id], TailKnown(w, id))
    ensures NewestArriving(w)
  {
    assert SlotOk(id, w.slots[id]) && Shaped(w.slots[id]) && InRange(w, id);
    NothingMissing(id, w.slots[id], TailKnown(w, id));
  }

  /** An incomplete frame no keyframe will replace is on the clock, or is the newest and still arriving. */
  lemma {:induction false} IncompleteIsWatched(w: Window, id: nat)
    requires Inv(w) && WellShaped(w) && id in w.slots && w.slots[id].complete.None?
    requires NoLaterKey(w, id) && WorthAsking(w, w.slots[id])
    ensures Deadlines(w) != {} || NewestArriving(w)
  {
    assert Shaped(w.slots[id]);
    if IsMissing(w.slots[id], TailKnown(w, id)) { MissingIsWatched(w, id); } else { ArrivingIsNewest(w, id); }
  }

  lemma {:induction false} GreatestKeyIsWatched(w: Window)
    requires Inv(w) && WellShaped(w) && KeyInFlight(w)
    ensures Deadlines(w) != {} || NewestArriving(w)
  {
    var keys := set k | k in w.slots && w.slots[k].isKey;
    var some :| some in w.slots && w.slots[some].isKey;
    assert some in keys;
    var k := Greatest(keys);
    assert NoLaterKey(w, k) by {
      forall j | j in w.slots && j > k ensures !w.slots[j].isKey { assert j in keys <==> w.slots[j].isKey; }
    }
    assert SlotOk(k, w.slots[k]) && k !in CompleteKeys(w);
    IncompleteIsWatched(w, k);
  }

  lemma {:induction false} WaitingIsWatched(w: Window)
    requires Inv(w) && WellShaped(w) && w.needKey && w.slots != map[] && !KeyInFlight(w)
    ensures Deadlines(w) != {}
  {
    assert w.keyAsked.value + w.config.keyframeRetry in KeyTimes(w);
  }

  /**
   * The window is stalled if and only if frames are held, the chain is intact, the frame it waits for is
   * not tracked, and everything it holds is complete.
   */
  lemma {:induction false} StalledWhen(w: Window)
    requires Inv(w) && WellShaped(w)
    ensures Stalled(w) <==>
              && w.slots != map[] && !w.needKey && w.nextId.Some? && w.nextId.value !in w.slots
              && forall id :: id in w.slots ==> w.slots[id].complete.Some?
  {
    if Stalled(w) {
      if KeyInFlight(w) { GreatestKeyIsWatched(w); }
      if w.needKey && !KeyInFlight(w) { WaitingIsWatched(w); }
      forall id | id in w.slots ensures w.slots[id].complete.Some? {
        if w.slots[id].complete.None? { IncompleteIsWatched(w, id); }
      }
    }
  }

  /** So it is after every run at all. */
  lemma {:induction false} StalledIff(c: Config, es: seq<Event>)
    ensures var w := Run(c, es).0;
            Stalled(w) <==>
              && w.slots != map[] && !w.needKey && w.nextId.Some? && w.nextId.value !in w.slots
              && forall id :: id in w.slots ==> w.slots[id].complete.Some?
  {
    StalledWhen(Run(c, es).0);
  }

  // ---- what the decoder may come to need ----

  /** `id` is tracked, or a keyframe after it will make it unnecessary. */
  predicate Covered(w: Window, id: nat) {
    id in w.slots || exists k :: k in w.slots && k > id && w.slots[k].isKey
  }

  /** Every frame from `lo` up to the newest seen is covered, apart from those handed out or given up. */
  predicate CoveredFrom(w: Window, lo: nat) {
    w.highest.Some? ==> forall id :: lo <= id <= w.highest.value && NotStale(w, id) ==> Covered(w, id)
  }

  predicate HoldsKey(w: Window, k: nat) {
    k in w.slots && w.slots[k].isKey
  }

  /**
   * Whatever the decoder may come to need is covered: everything after a keyframe under way, from which
   * it would go on, and everything not yet handed out while the chain is intact. A window that may hold
   * nothing has nothing to wait for.
   */
  ghost predicate WellTracked(w: Window) {
    w.config.maxHeld >= 1 ==>
      && (forall k: nat :: HoldsKey(w, k) ==> CoveredFrom(w, k + 1))
      && (!w.needKey ==> CoveredFrom(w, 0))
  }

  predicate NoKeyHeld(w: Window) {
    forall k :: k in w.slots ==> !w.slots[k].isKey
  }

  /** From `w` to `w'` slots only go away, and only from below what the decoder still needs. */
  predicate Trims(w: Window, w': Window) {
    && w'.highest == w.highest && w'.config == w.config
    && (w.nextId.Some? ==> w'.nextId.Some? && w'.nextId.value >= w.nextId.value)
    && (forall id :: id in w'.slots ==> id in w.slots && w'.slots[id].isKey == w.slots[id].isKey)
    && (forall id :: id in w.slots && id !in w'.slots ==> w'.nextId.Some? && id < w'.nextId.value)
  }

  lemma {:induction false} TrimsChain(a: Window, b: Window, c: Window)
    requires Trims(a, b) && Trims(b, c)
    ensures Trims(a, c)
  {
  }

  lemma {:induction false} TrimsCovers(w: Window, w': Window, lo: nat)
    requires Trims(w, w') && CoveredFrom(w, lo)
    ensures CoveredFrom(w', lo)
  {
    if w'.highest.Some? {
      forall id | lo <= id <= w'.highest.value && NotStale(w', id) ensures Covered(w', id) {
        assert Covered(w, id);
        if id !in w.slots {
          var k :| k in w.slots && k > id && w.slots[k].isKey;
          assert k in w'.slots;
        }
      }
    }
  }

  lemma {:induction false} TrimsTracked(w: Window, w': Window)
    requires Trims(w, w') && WellTracked(w) && (w.needKey ==> w'.needKey)
    ensures WellTracked(w')
  {
    if w.config.maxHeld >= 1 {
      forall k: nat | HoldsKey(w', k) ensures CoveredFrom(w', k + 1) {
        assert HoldsKey(w, k);
        TrimsCovers(w, w', k + 1);
      }
      if !w'.needKey { TrimsCovers(w, w', 0); }
    }
  }

  lemma {:induction false} ReleaseTrims(w: Window)
    requires Base(w)
    ensures Trims(w, Release(w).0)
    decreases w.slots.Keys
  {
    if NextReady(w) {
      TakeNextShrinks(w);
      TakeNextBase(w);
      ReleaseTrims(TakeNext(w));
      TrimsChain(w, TakeNext(w), Release(TakeNext(w)).0);
    } else if CompleteKeys(w) != {} {
      var id := Least(CompleteKeys(w));
      TakeKeyShrinks(w, id);
      TakeKeyBase(w, id);
      ReleaseTrims(TakeKey(w, id));
      assert Trims(w, TakeKey(w, id)) by { assert InRange(w, id); }
      TrimsChain(w, TakeKey(w, id), Release(TakeKey(w, id)).0);
    }
  }

  /** A chain is restarted only by a keyframe that was held, and past it. */
  lemma {:induction false} ReleaseRestarts(w: Window)
    requires Base(w) && w.needKey && !Release(w).0.needKey
    ensures exists k: nat :: HoldsKey(w, k) && NotStale(w, k) && Release(w).0.nextId.Some? && Release(w).0.nextId.value > k
  {
    var k := Least(CompleteKeys(w));
    TakeKeyBase(w, k);
    ReleaseAdvances(TakeKey(w, k));
    assert HoldsKey(w, k) && InRange(w, k);
  }

  lemma {:induction false} ReleaseTracked(w: Window)
    requires Base(w) && WellTracked(w)
    ensures WellTracked(Release(w).0)
  {
    var w' := Release(w).0;
    ReleaseTrims(w);
    if w.config.maxHeld == 0 {
    } else if w.needKey && !w'.needKey {
      ReleaseRestarts(w);
      var k: nat :| HoldsKey(w, k) && w'.nextId.Some? && w'.nextId.value > k;
      TrimsCovers(w, w', k + 1);
      TrimsTracked(w, w'.(needKey := true));
    } else {
      TrimsTracked(w, w');
    }
  }

  lemma {:induction false} SameFramesTrim(w: Window, w': Window)
    requires SameFrames(w, w')
    ensures Trims(w, w')
  {
    assert forall k :: k in w'.slots <==> k in w.slots.Keys;
  }

  lemma {:induction false} EnforceTrims(w: Window, now: nat)
    requires Base(w) && Released(w) && WellShaped(w) && Requested(w)
    ensures Trims(w, EnforceCapacity(w, now).0)
  {
    EnforceInv(w, now);
  }

  lemma {:induction false} SettleTrims(w: Window, now: nat)
    requires Base(w) && WellShaped(w)
    ensures Trims(w, Settle(w, now).0)
    ensures WellTracked(w) ==> WellTracked(Settle(w, now).0)
  {
    ReleaseTrims(w);
    ReleaseStage(w);
    var w1 := Release(w).0;
    RequestStage(w1, now);
    SettleStages(w, now);
    var w2 := RequestMissing(w1, now).0;
    var w3 := EnforceCapacity(w2, now).0;
    SameFramesTrim(w1, w2);
    EnforceTrims(w2, now);
    TrimsChain(w1, w2, w3);
    TrimsChain(w, w1, w3);
    EnforceInv(w2, now);
    if WellTracked(w) {
      ReleaseTracked(w);
      TrimsTracked(w1, w3);
    }
  }

  // ---- taking in a fragment keeps every needed frame covered ----

  /** Every frame from `lo` on but the one arriving now is covered. */
  predicate CoveredBut(w: Window, lo: nat, f: nat, isKey: bool) {
    w.highest.Some? && forall id :: lo <= id <= w.highest.value && NotStale(w, id) ==>
                         Covered(w, id) || id == f || (isKey && id < f)
  }

  lemma {:induction false} TailsCover(w: Window, now: nat, highest: nat, id: nat)
    requires WellShaped(w) && Covered(w, id)
    ensures Covered(MarkTails(w, now).(highest := Some(highest)), id)
  {
    var w1 := MarkTails(w, now).(highest := Some(highest));
    if id !in w.slots {
      var k :| k in w.slots && k > id && w.slots[k].isKey;
      assert k in w1.slots && w1.slots[k].isKey;
    }
  }

  /** A jump past the newest frame seen. */
  lemma {:induction false} JumpCovers(w: Window, f: nat, isKey: bool, now: nat, lo: nat)
    requires Base(w) && WellShaped(w) && w.highest.Some? && f > w.highest.value && CoveredFrom(w, lo)
    ensures CoveredBut(NoteNewFrame(w, f, isKey, now).0, lo, f, isKey)
  {
    var w0 := NoteAsked(w, now);
    var w' := NoteNewFrame(w, f, isKey, now).0;
    var highest := w.highest.value;
    var w1 := MarkTails(w0, now).(highest := Some(f));
    forall id | lo <= id <= highest && NotStale(w, id) ensures Covered(w1, id) {
      assert Covered(w, id);
      assert Covered(w0, id);
      TailsCover(w0, now, f, id);
    }
    if 0 < f - highest - 1 <= w.config.maxGap {
      forall id | lo <= id < f && NotStale(w, id) ensures Covered(w', id) {
        FilledCovers(w1, highest, f, now, id);
      }
    }
  }

  lemma {:induction false} NoteCovers(w: Window, f: nat, isKey: bool, now: nat, lo: nat)
    requires Base(w) && WellShaped(w) && w.highest.Some? && CoveredFrom(w, lo)
    ensures CoveredBut(NoteNewFrame(w, f, isKey, now).0, lo, f, isKey)
  {
    var w' := NoteNewFrame(w, f, isKey, now).0;
    if f <= w.highest.value {
      forall id | lo <= id <= w'.highest.value && NotStale(w', id) ensures Covered(w', id) {
        assert Covered(w, id);
      }
    } else {
      JumpCovers(w, f, isKey, now, lo);
    }
  }

  lemma {:induction false} FilledCovers(w: Window, highest: nat, f: nat, now: nat, id: nat)
    requires id > highest || Covered(w, id)
    requires id < f && NotStale(w, id)
    ensures Covered(FillGap(w, highest, f, now), id)
  {
    var w' := FillGap(w, highest, f, now);
    if id > highest {
      assert id in Gap(w, highest, f);
    } else if id !in w.slots {
      var k :| k in w.slots && k > id && w.slots[k].isKey;
      assert k in w'.slots && w'.slots[k].isKey;
    }
  }

  lemma {:induction false} StoredCovers(w: Window, h: Header, payload: Bytes, now: nat, lo: nat)
    requires Base(w) && WellShaped(w) && Accepted(w, h, now) && w.highest.Some? && CoveredFrom(w, lo)
    ensures CoveredFrom(Stored(w, h, payload, now).0, lo)
  {
    var f := h.frameId;
    NoteCovers(w, f, IsKeyframe(h), now, lo);
    NoteBase(w, f, IsKeyframe(h), now);
    NoteKeepsShape(w, f, IsKeyframe(h), now);
    var w1 := NoteNewFrame(w, f, IsKeyframe(h), now).0;
    var w' := Stored(w, h, payload, now).0;
    assert f in w'.slots && (IsKeyframe(h) ==> w'.slots[f].isKey);
    StoredKeepsKeys(w1, h, payload);
    forall id | lo <= id <= w'.highest.value && NotStale(w', id) ensures Covered(w', id) {
      if Covered(w1, id) && id !in w1.slots {
        var k :| k in w1.slots && k > id && w1.slots[k].isKey;
        assert k in w'.slots && w'.slots[k].isKey;
      }
    }
  }

  lemma {:induction false} StoredKeepsKeys(w: Window, h: Header, payload: Bytes)
    requires WellShaped(w)
    requires var slot := SlotFor(w, h.frameId, h.fragTotal); slot.complete.None? && h.fragId < |slot.fragments|
    ensures var w' := Accept(w, SlotFor(w, h.frameId, h.fragTotal), h, payload).0;
            && w'.highest == w.highest && w'.nextId == w.nextId
            && forall id :: id in w.slots ==> id in w'.slots && (w.slots[id].isKey ==> w'.slots[id].isKey)
  {
  }

  /** The only keyframe a fragment can make is its own, and it leaves the chain as it was or breaks it. */
  lemma {:induction false} StoredHolds(w: Window, h: Header, payload: Bytes, now: nat)
    requires Base(w) && WellShaped(w) && Accepted(w, h, now)
    ensures var w' := Stored(w, h, payload, now).0;
            && w'.config == w.config && (w.needKey ==> w'.needKey) && w'.highest.Some?
            && (w.highest.None? || w.highest.value < h.frameId ==> w'.highest == Some(h.frameId as nat))
            && (forall k: nat :: HoldsKey(w', k) && !HoldsKey(w, k) ==> k == h.frameId && IsKeyframe(h))
  {
    NoteHolds(w, h.frameId, IsKeyframe(h), now);
    NoteKeepsShape(w, h.frameId, IsKeyframe(h), now);
    AcceptHolds(NoteNewFrame(w, h.frameId, IsKeyframe(h), now).0, h, payload);
  }

  lemma {:induction false} NoteHolds(w: Window, f: nat, isKey: bool, now: nat)
    requires WellShaped(w)
    ensures var w' := NoteNewFrame(w, f, isKey, now).0;
            && w'.config == w.config && (w.needKey ==> w'.needKey) && w'.highest.Some?
            && (w.highest.None? || w.highest.value < f ==> w'.highest == Some(f))
            && (forall k: nat :: HoldsKey(w', k) ==> HoldsKey(w, k))
  {
  }

  lemma {:induction false} AcceptHolds(w: Window, h: Header, payload: Bytes)
    requires WellShaped(w)
    requires var slot := SlotFor(w, h.frameId, h.fragTotal); slot.complete.None? && h.fragId < |slot.fragments|
    ensures var w' := Accept(w, SlotFor(w, h.frameId, h.fragTotal), h, payload).0;
            && w'.config == w.config && w'.needKey == w.needKey && w'.highest == w.highest
            && (forall k: nat :: HoldsKey(w', k) && !HoldsKey(w, k) ==> k == h.frameId && IsKeyframe(h))
  {
  }

  // ---- the calls that keep it so ----

  /** A skip-ahead now would forget no frame that a keyframe it keeps does not make unnecessary. */
  predicate SkipSafe(w: Window) {
    !KeyInFlight(w) || (w.highest.Some? && w.highest.value in w.slots && w.slots[w.highest.value].isKey)
  }

  /** The fragment is the first to say that its frame is a keyframe. */
  predicate NewKey(w: Window, h: Header) {
    IsKeyframe(h) && !HoldsKey(w, h.frameId)
  }

  /** The fragment is the last its frame lacks. */
  predicate Finishes(w: Window, h: Header)
    requires WellShaped(w)
  {
    SlotFor(w, h.frameId, h.fragTotal).received + 1 == h.fragTotal
  }

  predicate HoldsOlder(w: Window, id: nat) {
    exists m :: m in w.slots && m < id
  }

  /** The frame goes out at once, or there is room for it: a place, or an older frame to give up. */
  predicate FindsRoom(w: Window, h: Header)
    requires WellShaped(w)
  {
    && w.config.maxHeld >= 1
    && (Finishes(w, h) || h.frameId in w.slots || |w.slots| < w.config.maxHeld
        || HoldsOlder(w, h.frameId))
  }

  /**
   * A fragment now would start no keyframe with a frame after it that is neither tracked nor made
   * unnecessary by a later keyframe. Fragments that are not of a keyframe are always safe.
   */
  predicate KeySafe(w: Window, h: Header, now: nat)
    requires WellShaped(w)
  {
    NewKey(w, h) && Accepted(w, h, now) && FindsRoom(w, h) ==> CoveredFrom(w, h.frameId as nat + 1)
  }

  /** Whether a call is safe, which the window before it decides. */
  predicate Safe(w: Window, e: Event)
    requires WellShaped(w)
  {
    && (e.Fragment? ==> KeySafe(w, e.h, e.now))
    && (e.SkipAhead? ==> SkipSafe(w))
  }

  lemma {:induction false} StoredTracked(w: Window, h: Header, payload: Bytes, now: nat)
    requires Base(w) && WellShaped(w) && Accepted(w, h, now) && WellTracked(w)
    requires NewKey(w, h) ==> CoveredFrom(w, h.frameId as nat + 1)
    ensures WellTracked(Stored(w, h, payload, now).0)
  {
    var w' := Stored(w, h, payload, now).0;
    StoredHolds(w, h, payload, now);
    if w.config.maxHeld >= 1 {
      forall k: nat | HoldsKey(w', k) ensures CoveredFrom(w', k + 1) {
        if w.highest.Some? && k <= w.highest.value { StoredCovers(w, h, payload, now, k + 1); }
      }
      if !w'.needKey { StoredCovers(w, h, payload, now, 0); }
    }
  }

  lemma {:induction false} KeyCovers(w: Window, k: nat, id: nat)
    requires WellTracked(w) && w.config.maxHeld >= 1 && HoldsKey(w, k)
    requires w.highest.Some? && id <= w.highest.value && NotStale(w, id)
    ensures Covered(w, id)
  {
    assert CoveredFrom(w, k + 1);
  }

  lemma {:induction false} ChainCovers(w: Window, id: nat)
    requires WellTracked(w) && w.config.maxHeld >= 1 && !w.needKey
    requires w.highest.Some? && id <= w.highest.value && NotStale(w, id)
    ensures Covered(w, id)
  {
    assert CoveredFrom(w, 0);
  }

  /** Where some frame is uncovered, the chain is broken and no keyframe is held. */
  lemma {:induction false} Uncovered(w: Window, lo: nat) returns (hole: nat)
    requires WellTracked(w) && w.config.maxHeld >= 1 && !CoveredFrom(w, lo)
    ensures w.needKey && NoKeyHeld(w)
    ensures w.highest.Some? && lo <= hole <= w.highest.value && hole !in w.slots && NotStale(w, hole)
  {
    hole :| lo <= hole <= w.highest.value && NotStale(w, hole) && !Covered(w, hole);
    forall k: nat ensures !HoldsKey(w, k) {
      if HoldsKey(w, k) { KeyCovers(w, k, hole); }
    }
    assert forall k :: k in w.slots ==> !HoldsKey(w, k);
    if !w.needKey { ChainCovers(w, hole); }
  }

  lemma {:induction false} OldNoted(w: Window, f: nat, isKey: bool, now: nat)
    requires WellShaped(w) && w.highest.Some? && f <= w.highest.value
    ensures NoteNewFrame(w, f, isKey, now) == (NoteAsked(w, now), NO_LOSS) && WellShaped(NoteAsked(w, now))
    ensures forall total: u16 :: SlotFor(NoteAsked(w, now), f, total) == SlotFor(w, f, total)
  {
  }

  lemma {:induction false} AcceptedSlot(w: Window, h: Header)
    requires WellShaped(w) && h.fragId < h.fragTotal && Fits(w, h)
    ensures var slot := SlotFor(w, h.frameId, h.fragTotal);
            && slot.complete.None? && h.fragId < |slot.fragments|
            && (Full(Store(slot, h, [])) <==> Finishes(w, h))
            && forall p: Bytes :: Full(Store(slot, h, p)) == Full(Store(slot, h, []))
  {
  }

  /** The slot of a stored fragment of a frame no newer than the newest seen, and no other slot, changes. */
  lemma {:induction false} OldStored(w: Window, h: Header, payload: Bytes, now: nat)
    requires WellShaped(w) && Accepted(w, h, now) && w.highest.Some? && h.frameId <= w.highest.value
    ensures var slot := SlotFor(w, h.frameId, h.fragTotal); var w' := Stored(w, h, payload, now).0;
            && slot.complete.None? && h.fragId < |slot.fragments|
            && var r := Store(slot, h, payload);
               && (Full(r) <==> Finishes(w, h))
               && w'.slots == w.slots[h.frameId as nat := if Full(r) then Finish(r, h.frameId) else r]
               && w'.nextId == w.nextId && w'.needKey == w.needKey && w'.highest == w.highest && w'.config == w.config
  {
    OldNoted(w, h.frameId, IsKeyframe(h), now);
    AcceptedSlot(w, h);
    var r := Store(SlotFor(w, h.frameId, h.fragTotal), h, payload);
    assert Stored(w, h, payload, now) == Accept(NoteAsked(w, now), SlotFor(w, h.frameId, h.fragTotal), h, payload);
    assert Full(r) == Full(Store(SlotFor(w, h.frameId, h.fragTotal), h, []));
  }

  /** One frame too many: the oldest is given up, and no other. */
  lemma {:induction false} EnforceOne(w: Window, now: nat)
    requires Base(w) && Released(w) && WellShaped(w) && Requested(w) && |w.slots| == w.config.maxHeld + 1
    ensures w.slots.Keys != {} && EnforceCapacity(w, now).0 == Broken(w, Least(w.slots.Keys), now)
  {
    assert |w.slots.Keys| == |w.slots|;
    var oldest := Least(w.slots.Keys);
    GiveUpKeeps(w, oldest, now);
    GiveUpInv(w, oldest, now);
    var w1 := Broken(w, oldest, now);
    SubsetSize(w1.slots.Keys, w.slots.Keys - {oldest});
  }

  /** `w1` is `w`, which holds no keyframe, with incomplete keyframe `f` added. */
  predicate Starts(w: Window, w1: Window, f: nat) {
    && NoKeyHeld(w) && f !in w.slots && w1.slots.Keys == w.slots.Keys + {f}
    && w1.slots[f].isKey && w1.slots[f].complete.None? && (forall k :: k in w.slots ==> !w1.slots[k].isKey)
    && w1.needKey && w1.nextId == w.nextId && w1.highest == w.highest && w1.config == w.config
  }

  lemma {:induction false} KeyStarts(w: Window, h: Header, payload: Bytes, now: nat)
    requires Inv(w) && WellShaped(w) && Accepted(w, h, now) && w.highest.Some? && h.frameId <= w.highest.value
    requires w.needKey && NoKeyHeld(w) && IsKeyframe(h) && !Finishes(w, h) && h.frameId !in w.slots
    ensures Starts(w, Stored(w, h, payload, now).0, h.frameId)
  {
    OldStored(w, h, payload, now);
  }

  lemma {:induction false} StartsReleased(w: Window, w1: Window, f: nat)
    requires Starts(w, w1, f)
    ensures Released(w1) && |w1.slots| == |w.slots| + 1
  {
    assert forall k :: k in w1.slots ==> k in w.slots.Keys + {f};
    assert |w1.slots.Keys| == |w.slots.Keys| + 1;
  }

  lemma {:induction false} StartsStays(w: Window, w1: Window, w2: Window, f: nat)
    requires Starts(w, w1, f) && SameFrames(w1, w2)
    ensures Starts(w, w2, f)
  {
    assert f in w1.slots.Keys;
    assert forall k :: k in w.slots ==> k in w1.slots.Keys;
  }

  /** With nothing to hand out, a call only asks and keeps within bounds. */
  lemma {:induction false} SettleOnlyAsks(w: Window, now: nat)
    requires Base(w) && WellShaped(w) && Released(w)
    ensures var w2 := RequestMissing(w, now).0;
            && Base(w2) && Released(w2) && WellShaped(w2) && Requested(w2) && SameFrames(w, w2)
            && Settle(w, now).0 == EnforceCapacity(w2, now).0
  {
    ReleaseIdle(w);
    RequestStage(w, now);
    SettleStages(w, now);
  }

  lemma {:induction false} SettleWaiting(w: Window, f: nat, w1: Window, now: nat)
    requires Base(w1) && WellShaped(w1) && Starts(w, w1, f)
    ensures var w2 := RequestMissing(w1, now).0;
            && Base(w2) && Released(w2) && WellShaped(w2) && Requested(w2) && Starts(w, w2, f)
            && |w2.slots| == |w.slots| + 1 && Settle(w1, now).0 == EnforceCapacity(w2, now).0
  {
    var w2 := RequestMissing(w1, now).0;
    StartsReleased(w, w1, f);
    SettleOnlyAsks(w1, now);
    StartsStays(w, w1, w2, f);
    StartsReleased(w, w2, f);
  }

  lemma {:induction false} NoKeysTracked(w: Window)
    requires w.needKey && NoKeyHeld(w)
    ensures WellTracked(w)
  {
  }

  /** When it is the oldest and one too many, it is given up again. */
  lemma {:induction false} GivenUpAgain(w: Window, w2: Window, f: nat, now: nat)
    requires Base(w2) && Released(w2) && WellShaped(w2) && Requested(w2) && Starts(w, w2, f)
    requires |w2.slots| == w2.config.maxHeld + 1 && forall k :: k in w.slots ==> k > f
    ensures EnforceCapacity(w2, now).0.needKey && NoKeyHeld(EnforceCapacity(w2, now).0)
  {
    assert f in w2.slots.Keys;
    LeastIs(f, w2.slots.Keys);
    EnforceOne(w2, now);
    var w' := Broken(w2, f, now);
    assert forall k :: k in w'.slots ==> k in w2.slots.Keys && k != f;
  }

  lemma {:induction false} NoRoomIs(w: Window, h: Header)
    requires Inv(w) && WellShaped(w) && !FindsRoom(w, h) && w.config.maxHeld >= 1
    ensures !Finishes(w, h) && h.frameId !in w.slots && |w.slots| == w.config.maxHeld
    ensures forall k :: k in w.slots ==> k > h.frameId
  {
    var f: nat := h.frameId;
    forall k | k in w.slots ensures k > f {
      assert k != f && !HoldsOlder(w, f);
    }
  }

  /** A new keyframe there is no room for is given up at once. */
  lemma {:induction false} NoRoomTracked(w: Window, h: Header, payload: Bytes, now: nat)
    requires Inv(w) && WellShaped(w) && Accepted(w, h, now) && w.highest.Some? && h.frameId <= w.highest.value
    requires w.needKey && NoKeyHeld(w) && IsKeyframe(h) && !FindsRoom(w, h) && w.config.maxHeld >= 1
    ensures WellTracked(Settle(Stored(w, h, payload, now).0, now).0)
  {
    var f: nat := h.frameId;
    var w1 := Stored(w, h, payload, now).0;
    NoRoomIs(w, h);
    KeyStarts(w, h, payload, now);
    StoredBase(w, h, payload, now);
    SettleWaiting(w, f, w1, now);
    var w2 := RequestMissing(w1, now).0;
    GivenUpAgain(w, w2, f, now);
    NoKeysTracked(EnforceCapacity(w2, now).0);
  }

  /** A new keyframe that is safe although a frame after it is uncovered has no room. */
  lemma {:induction false} UnroomedTracked(w: Window, h: Header, payload: Bytes, now: nat)
    requires Inv(w) && WellShaped(w) && Accepted(w, h, now) && WellTracked(w) && w.config.maxHeld >= 1
    requires IsKeyframe(h) && !CoveredFrom(w, h.frameId as nat + 1) && !FindsRoom(w, h)
    ensures WellTracked(Settle(Stored(w, h, payload, now).0, now).0)
  {
    var hole := Uncovered(w, h.frameId as nat + 1);
    NoRoomTracked(w, h, payload, now);
  }

  lemma {:induction false} AnythingIsTracked(w: Window)
    requires w.config.maxHeld == 0
    ensures WellTracked(w)
  {
  }

  lemma {:induction false} AcceptedTracked(w: Window, h: Header, payload: Bytes, now: nat)
    requires Inv(w) && WellShaped(w) && Accepted(w, h, now) && WellTracked(w) && KeySafe(w, h, now)
    ensures WellTracked(Settle(Stored(w, h, payload, now).0, now).0)
  {
    StoredBase(w, h, payload, now);
    var w1 := Stored(w, h, payload, now).0;
    SettleTrims(w1, now);
    if w.config.maxHeld == 0 {
      StoredHolds(w, h, payload, now);
      AnythingIsTracked(Settle(w1, now).0);
    } else if NewKey(w, h) && !CoveredFrom(w, h.frameId as nat + 1) {
      UnroomedTracked(w, h, payload, now);
    } else {
      StoredTracked(w, h, payload, now);
    }
  }

  lemma {:induction false} InsertTracked(w: Window, h: Header, payload: Bytes, now: nat)
    requires Inv(w) && WellShaped(w) && WellTracked(w) && KeySafe(w, h, now)
    ensures WellTracked(Insert(w, h, payload, now).0)
  {
    if Accepted(w, h, now) {
      AcceptedTracked(w, h, payload, now);
    } else {
      InsertRefused(w, h, payload, now);
      TrimsTracked(w, NoteAsked(w, now));
    }
  }

  lemma {:induction false} GiveUpTrims(w: Window, now: nat)
    requires Inv(w) && WellShaped(w)
    ensures var w1 := GiveUpExpired(w, now).0; Trims(w, w1) && (w.needKey ==> w1.needKey)
  {
    if Expired(w, now) != {} { GiveUpInv(w, Greatest(Expired(w, now)), now); }
  }

  lemma {:induction false} PollTrims(w: Window, now: nat)
    requires Inv(w) && WellShaped(w)
    ensures Trims(w, Poll(w, now).0) && (w.needKey ==> Poll(w, now).0.needKey)
  {
    GiveUpTrims(w, now);
    NothingExpires(w, now);
    var w1 := GiveUpExpired(w, now).0;
    RequestBase(w1, now);
    var w2 := RequestMissing(w1, now).0;
    SameFramesTrim(w1, w2);
    TrimsChain(w, w1, w2);
    PollTrimsLess(w2, Poll(w, now).0, w);
  }

  lemma {:induction false} PollTrimsLess(w2: Window, w': Window, w: Window)
    requires Trims(w, w2) && w' == w2.(keyAsked := w'.keyAsked)
    ensures Trims(w, w') && w'.needKey == w2.needKey
  {
  }

  /** With the newest frame a keyframe held, a skip-ahead keeps it, and it covers every frame up to itself. */
  lemma {:induction false} SkipKeepsNewest(w: Window, now: nat)
    requires w.highest.Some? && w.highest.value in w.slots && w.slots[w.highest.value].isKey
    ensures var w' := RequireKeyframe(w, now);
            w'.highest == w.highest && forall id: nat :: id <= w.highest.value ==> Covered(w', id)
  {
    assert w.highest.value in Kept(w);
  }

  /** With no keyframe held, it drops everything and moves past the newest frame. */
  lemma {:induction false} SkipEmpties(w: Window, now: nat)
    requires Inv(w) && w.highest.Some? && !KeyInFlight(w)
    ensures var w' := RequireKeyframe(w, now);
            w'.highest == w.highest && w'.nextId.Some? && w'.nextId.value > w.highest.value
  {
    assert forall id :: id in w.slots ==> InRange(w, id);
    assert Kept(w) == map[];
  }

  lemma {:induction false} SkipHolds(w: Window, now: nat)
    ensures var w' := RequireKeyframe(w, now);
            && w'.needKey && w'.config == w.config
            && (w.highest.Some? ==> w'.slots == Kept(w))
            && forall k: nat :: HoldsKey(w', k) ==> HoldsKey(w, k)
  {
  }

  /** A skip-ahead that is safe leaves no needed frame uncovered. */
  lemma {:induction false} SkipTracked(w: Window, now: nat)
    requires Inv(w) && SkipSafe(w)
    ensures WellTracked(RequireKeyframe(w, now))
  {
    var w' := RequireKeyframe(w, now);
    SkipHolds(w, now);
    if KeyInFlight(w) {
      SkipKeepsNewest(w, now);
    } else {
      assert forall k: nat :: !HoldsKey(w, k);
    }
  }

  lemma {:induction false} StepTracked(w: Window, e: Event)
    requires Inv(w) && WellShaped(w) && WellTracked(w) && Safe(w, e)
    ensures WellTracked(Step(w, e).0)
  {
    match e
    case Fragment(h, payload, now) => InsertTracked(w, h, payload, now);
    case Tick(now) =>
      PollTrims(w, now);
      TrimsTracked(w, Poll(w, now).0);
    case Rtt(rtt) => TrimsTracked(w, SetRtt(w, rtt));
    case SkipAhead(now) => SkipTracked(w, now);
  }

  // ---- runs that cannot stall ----

  /** Every call of the run was safe when it was made. */
  ghost predicate SafeRun(c: Config, es: seq<Event>) {
    es == [] || (SafeRun(c, es[..|es| - 1]) && Safe(Run(c, es[..|es| - 1]).0, es[|es| - 1]))
  }

  /** In such runs whatever the decoder may come to need is tracked, or a later keyframe held. */
  lemma {:induction false} RunTracked(c: Config, es: seq<Event>)
    requires SafeRun(c, es)
    ensures WellTracked(Run(c, es).0)
  {
    if es == [] {
      assert Run(c, es).0 == New(c);
    } else {
      var before := es[..|es| - 1];
      RunTracked(c, before);
      RunUnfolds(c, es);
      StepTracked(Run(c, before).0, es[|es| - 1]);
    }
  }

  lemma {:induction false} RunUnfolds(c: Config, es: seq<Event>)
    requires es != []
    ensures Run(c, es).0 == Step(Run(c, es[..|es| - 1]).0, es[|es| - 1]).0
  {
  }

  lemma {:induction false} KeysAreIncomplete(w: Window)
    requires Inv(w)
    ensures forall k :: k in w.slots && w.slots[k].isKey ==> w.slots[k].complete.None?
  {
    forall k | k in w.slots ensures w.slots[k].isKey ==> w.slots[k].complete.None? {
      assert SlotOk(k, w.slots[k]) && k !in CompleteKeys(w);
    }
  }

  /** A well-tracked window is not stalled. */
  lemma {:induction false} TrackedIsLive(w: Window)
    requires Inv(w) && WellShaped(w) && WellTracked(w)
    ensures !Stalled(w)
  {
    StalledWhen(w);
    KeysAreIncomplete(w);
    assert forall id :: id in w.slots ==> InRange(w, id);
    if w.slots != map[] && !w.needKey {
      assert w.config.maxHeld >= 1 by { SomeHeld(w); }
      ChainCovers(w, w.nextId.value);
    }
  }

  lemma {:induction false} SomeHeld(w: Window)
    requires Inv(w) && w.slots != map[]
    ensures w.config.maxHeld >= 1 && (w.nextId.Some? ==> w.highest.Some? && w.nextId.value <= w.highest.value)
  {
    var id :| id in w.slots;
    assert InRange(w, id) && id in w.slots.Keys;
    assert w.slots.Keys != {};
  }

  /**
   * No silent stall: with every call safe, whenever any frame is held there is a deadline, or the newest
   * frame is held with exactly a prefix of its fragments.
   */
  lemma {:induction false} NoSilentStall(c: Config, es: seq<Event>)
    requires SafeRun(c, es)
    ensures var w := Run(c, es).0;
            w.slots != map[] ==> NextDeadline(w).Some? || NewestArriving(w)
  {
    RunTracked(c, es);
    TrackedIsLive(Run(c, es).0);
  }

  // ---- a condition on the datagrams alone ----

  predicate ValidFragment(e: Event) {
    e.Fragment? && Validate(e.h).Ok?
  }

  /** The frame of the first valid fragment of a run. */
  function FirstId(es: seq<Event>): Option<nat> {
    if es == [] then None
    else
      var before := FirstId(es[..|es| - 1]);
      if before.None? && ValidFragment(es[|es| - 1]) then Some(es[|es| - 1].h.frameId as nat) else before
  }

  /** No fragment is of a frame older than the first one seen. */
  predicate StartsLowest(es: seq<Event>) {
    forall e :: e in es && ValidFragment(e) && FirstId(es).Some? ==> e.h.frameId >= FirstId(es).value
  }

  /** Every skip-ahead of the run was made when it was safe. */
  ghost predicate SafeSkips(c: Config, es: seq<Event>) {
    es == [] || (SafeSkips(c, es[..|es| - 1])
                 && (es[|es| - 1].SkipAhead? ==> SkipSafe(Run(c, es[..|es| - 1]).0)))
  }

  lemma {:induction false} LowestPrefix(es: seq<Event>)
    requires es != [] && StartsLowest(es)
    ensures StartsLowest(es[..|es| - 1])
    ensures var e := es[|es| - 1]; var first := FirstId(es[..|es| - 1]);
            ValidFragment(e) && first.Some? ==> e.h.frameId >= first.value
  {
    var before := es[..|es| - 1];
    assert es == before + [es[|es| - 1]];
    assert es[|es| - 1] in es;
  }

  /** No call but an unsafe skip-ahead leaves a needed frame uncovered. */
  lemma {:induction false} StepCovers(w: Window, e: Event, lo: nat)
    requires Inv(w) && WellShaped(w) && w.highest.Some? && CoveredFrom(w, lo) && (e.SkipAhead? ==> SkipSafe(w))
    ensures CoveredFrom(Step(w, e).0, lo) && Step(w, e).0.highest.Some?
  {
    match e
    case Fragment(h, payload, now) =>
      if Accepted(w, h, now) {
        var w1 := Stored(w, h, payload, now).0;
        StoredBase(w, h, payload, now);
        StoredHolds(w, h, payload, now);
        StoredCovers(w, h, payload, now, lo);
        SettleTrims(w1, now);
        TrimsCovers(w1, Settle(w1, now).0, lo);
      } else {
        InsertRefused(w, h, payload, now);
        TrimsCovers(w, NoteAsked(w, now), lo);
      }
    case Tick(now) =>
      PollTrims(w, now);
      TrimsCovers(w, Poll(w, now).0, lo);
    case Rtt(rtt) => TrimsCovers(w, SetRtt(w, rtt), lo);
    case SkipAhead(now) =>
      if KeyInFlight(w) { SkipKeepsNewest(w, now); } else { SkipEmpties(w, now); }
  }

  /** Into an empty window every valid fragment goes. */
  lemma {:induction false} FirstIsAccepted(w: Window, h: Header, now: nat)
    requires Inv(w) && WellShaped(w) && Validate(h).Ok? && w.highest.None?
    ensures Accepted(w, h, now)
  {
    assert forall id :: id in w.slots ==> InRange(w, id);
  }

  lemma {:induction false} FirstStored(w: Window, h: Header, payload: Bytes, now: nat)
    requires Inv(w) && WellShaped(w) && w.highest.None? && Accepted(w, h, now)
    ensures var w1 := Stored(w, h, payload, now).0; w1.highest == Some(h.frameId as nat) && CoveredFrom(w1, h.frameId)
  {
    StoredHolds(w, h, payload, now);
    assert h.frameId in Stored(w, h, payload, now).0.slots;
  }

  /** The first valid fragment is all there is to cover. */
  lemma {:induction false} FirstInsertCovers(w: Window, h: Header, payload: Bytes, now: nat)
    requires Inv(w) && WellShaped(w) && w.highest.None? && Validate(h).Ok?
    ensures var w' := Insert(w, h, payload, now).0; w'.highest.Some? && CoveredFrom(w', h.frameId)
  {
    FirstIsAccepted(w, h, now);
    FirstStored(w, h, payload, now);
    StoredBase(w, h, payload, now);
    var w1 := Stored(w, h, payload, now).0;
    SettleTrims(w1, now);
    TrimsCovers(w1, Settle(w1, now).0, h.frameId);
  }

  lemma {:induction false} FirstCovers(w: Window, e: Event)
    requires Inv(w) && WellShaped(w) && w.highest.None?
    ensures var w' := Step(w, e).0;
            if ValidFragment(e) then w'.highest.Some? && CoveredFrom(w', e.h.frameId) else w'.highest.None?
  {
    if ValidFragment(e) {
      FirstInsertCovers(w, e.h, e.payload, e.now);
    } else if e.Tick? {
      PollTrims(w, e.now);
    }
  }

  /** With the lowest frame first, every frame from it on is covered. */
  lemma {:induction false} LowestFirstCovers(c: Config, es: seq<Event>)
    requires StartsLowest(es) && SafeSkips(c, es)
    ensures var (w, first) := (Run(c, es).0, FirstId(es));
            && (w.highest.Some? <==> first.Some?)
            && (first.Some? ==> CoveredFrom(w, first.value))
  {
    if es != [] {
      var before := es[..|es| - 1];
      var w := Run(c, before).0;
      LowestPrefix(es);
      LowestFirstCovers(c, before);
      RunUnfolds(c, es);
      if w.highest.Some? { StepCovers(w, es[|es| - 1], FirstId(before).value); } else { FirstCovers(w, es[|es| - 1]); }
    }
  }

  /** So a run whose first fragment is of the lowest frame is safe as long as its skip-aheads are. */
  lemma {:induction false} LowestFirstIsSafe(c: Config, es: seq<Event>)
    requires StartsLowest(es) && SafeSkips(c, es)
    ensures SafeRun(c, es)
  {
    if es != [] {
      var before := es[..|es| - 1];
      LowestPrefix(es);
      LowestFirstIsSafe(c, before);
      LowestFirstCovers(c, before);
    }
  }
}
