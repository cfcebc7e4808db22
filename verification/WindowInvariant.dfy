/** What every call on the receive window keeps, whatever arrives and in whatever order. */
module WindowInvariant {
  import opened Prelude
  import opened Wire
  import opened Fragments
  import opened WindowModel
  import opened WindowSteps

  /** The fragment bookkeeping of one incomplete, sized slot. */
  predicate Partial(s: Slot) {
    && s.fragTotal.Some? && s.complete.None?
    && |s.fragments| == |s.asked| == s.fragTotal.value
    && s.received == Arrived(s.fragments)
    && 0 < s.received < s.fragTotal.value
    && s.highestFrag < s.fragTotal.value
    && s.fragments[s.highestFrag].Some?
    && (forall i :: s.highestFrag < i < s.fragTotal.value ==> s.fragments[i].None?)
  }

  predicate SlotOk(id: nat, s: Slot) {
    && (s.fragTotal.None? ==>
          s.complete.None? && s.fragments == [] && s.asked == [] && s.received == 0 && !s.isKey && s.missingSince.Some?)
    && (s.fragTotal.Some? && s.complete.None? ==> Partial(s))
    && (s.complete.Some? ==>
          s.complete.value.id == id && s.complete.value.isKey == s.isKey && s.missingSince.None?)
    && AskedOk(s)
  }

  /** Whatever was asked for left its round and its time behind. */
  predicate AskedOk(s: Slot) {
    && (s.askedWhole || s.nackRounds > 0 ==> s.lastNack.Some? && s.nackRounds > 0)
    && (forall k :: 0 <= k < |s.asked| && s.asked[k] ==> s.lastNack.Some? && s.nackRounds > 0)
  }

  predicate InRange(w: Window, id: nat) {
    && (w.nextId.Some? ==> id >= w.nextId.value)
    && w.highest.Some? && id <= w.highest.value
  }

  /** Bookkeeping that holds even between the stages of one call. */
  predicate Base(w: Window) {
    && (forall id :: id in w.slots ==> SlotOk(id, w.slots[id]))
    && (forall id :: id in w.slots ==> InRange(w, id))
    && (w.nextId.Some? ==> w.highest.Some? && w.nextId.value <= w.highest.value + 1)
    && (!w.needKey ==> w.nextId.Some?)
    && (w.needKey && w.slots != map[] ==> w.keyAsked.Some?)
  }

  lemma {:induction false} BaseIsShaped(w: Window)
    requires Base(w)
    ensures WellShaped(w)
  {
    forall id | id in w.slots ensures Shaped(w.slots[id]) {
      assert SlotOk(id, w.slots[id]);
    }
  }

  /** Nothing the decoder could take is held back. */
  predicate Released(w: Window) {
    CompleteKeys(w) == {} && !NextReady(w)
  }

  /** Every hole worth asking for is on the clock and has been asked for. */
  predicate OnTheClock(w: Window, id: nat)
    requires id in w.slots && Shaped(w.slots[id])
  {
    var s := w.slots[id];
    s.missingSince.Some?
    && (s.fragTotal.None? ==> s.nackRounds < w.config.maxNackRounds ==> s.askedWhole)
    && (s.fragTotal.Some? ==>
          s.lastNack.Some? && forall k :: k in Missing(s, TailKnown(w, id)) ==> k < |s.asked| && s.asked[k])
  }

  predicate Chased(w: Window, id: nat)
    requires id in w.slots && Shaped(w.slots[id])
  {
    Recoverable(w, id) && WorthAsking(w, w.slots[id]) && IsMissing(w.slots[id], TailKnown(w, id))
  }

  predicate Requested(w: Window)
    requires WellShaped(w)
  {
    forall id :: id in w.slots && Chased(w, id) ==> OnTheClock(w, id)
  }

  /** The invariant between calls. */
  predicate Inv(w: Window) {
    && Base(w)
    && Released(w)
    && (BaseIsShaped(w); Requested(w))
    && |w.slots| <= w.config.maxHeld
  }

  // ---- handing out ----

  /** `frames` can follow a decoder that last took `last`, in order and with every reference present. */
  predicate Follows(last: Option<nat>, intact: bool, frames: seq<Frame>)
    decreases |frames|
  {
    frames != [] ==>
      && (last.Some? ==> frames[0].id > last.value)
      && (!frames[0].isKey ==> intact && last.Some? && frames[0].id == last.value + 1)
      && Follows(Some(frames[0].id), true, frames[1..])
  }

  lemma {:induction false} TakeNextBase(w: Window)
    requires Base(w) && NextReady(w)
    ensures Base(TakeNext(w))
  {
    var w1 := TakeNext(w);
    forall id | id in w1.slots ensures SlotOk(id, w1.slots[id]) && InRange(w1, id) {
      assert SlotOk(id, w.slots[id]) && InRange(w, id);
    }
    assert InRange(w, w.nextId.value);
  }

  lemma {:induction false} TakeKeyBase(w: Window, id: nat)
    requires Base(w) && id in w.slots
    ensures Base(TakeKey(w, id))
    ensures w.nextId.Some? ==> id >= w.nextId.value
  {
    var w1 := TakeKey(w, id);
    forall k | k in w1.slots ensures SlotOk(k, w1.slots[k]) && InRange(w1, k) {
      assert SlotOk(k, w.slots[k]) && InRange(w, k);
    }
    assert InRange(w, id);
  }

  lemma {:induction false} ReleaseSafe(w: Window, last: Option<nat>)
    requires Base(w)
    requires last.Some? ==> w.nextId.Some? && last.value < w.nextId.value
    requires !w.needKey ==> last.Some? && last.value + 1 == w.nextId.value
    ensures Base(Release(w).0) && Released(Release(w).0)
    ensures Follows(last, !w.needKey, Release(w).1)
    decreases w.slots.Keys
  {
    if NextReady(w) {
      var n := w.nextId.value;
      assert SlotOk(n, w.slots[n]);
      TakeNextShrinks(w);
      TakeNextBase(w);
      ReleaseSafe(TakeNext(w), Some(n));
      var f := w.slots[n].complete.value;
      var rest := Release(TakeNext(w)).1;
      assert ([f] + rest)[1..] == rest;
    } else if CompleteKeys(w) != {} {
      var id := Least(CompleteKeys(w));
      assert SlotOk(id, w.slots[id]);
      TakeKeyShrinks(w, id);
      TakeKeyBase(w, id);
      ReleaseSafe(TakeKey(w, id), Some(id));
      var f := w.slots[id].complete.value;
      var rest := Release(TakeKey(w, id)).1;
      assert ([f] + rest)[1..] == rest;
    }
  }

  /** Where handing out leaves the window. */
  predicate Advanced(w: Window, w': Window, frames: seq<Frame>) {
    && (frames == [] ==> w' == w)
    && (frames != [] ==> !w'.needKey && w'.nextId == Some(frames[|frames| - 1].id + 1))
    && (w.nextId.Some? ==> w'.nextId.Some? && w'.nextId.value >= w.nextId.value)
  }

  lemma {:induction false} AdvancedOn(w: Window, w1: Window, f: Frame, w': Window, frames: seq<Frame>)
    requires Advanced(w1, w', frames) && !w1.needKey && w1.nextId == Some(f.id + 1)
    requires w.nextId.Some? ==> f.id >= w.nextId.value
    ensures Advanced(w, w', [f] + frames)
  {
  }

  lemma {:induction false} ReleaseAdvances(w: Window)
    requires Base(w)
    ensures Advanced(w, Release(w).0, Release(w).1)
    decreases w.slots.Keys
  {
    if NextReady(w) {
      var id := w.nextId.value;
      assert SlotOk(id, w.slots[id]);
      TakeNextShrinks(w);
      TakeNextBase(w);
      ReleaseAdvances(TakeNext(w));
      AdvancedOn(w, TakeNext(w), w.slots[id].complete.value, Release(TakeNext(w)).0, Release(TakeNext(w)).1);
    } else if CompleteKeys(w) != {} {
      var id := Least(CompleteKeys(w));
      assert SlotOk(id, w.slots[id]) && InRange(w, id);
      TakeKeyShrinks(w, id);
      TakeKeyBase(w, id);
      ReleaseAdvances(TakeKey(w, id));
      AdvancedOn(w, TakeKey(w, id), w.slots[id].complete.value, Release(TakeKey(w, id)).0, Release(TakeKey(w, id)).1);
    }
  }

  /** A window with nothing to hand out is left as it is. */
  lemma {:induction false} ReleaseIdle(w: Window)
    requires Released(w)
    ensures Release(w) == (w, [])
  {
  }

  // ---- asking ----

  /** Same frame contents; only request bookkeeping may differ. */
  predicate SameFrame(s: Slot, r: Slot) {
    && r.complete == s.complete && r.isKey == s.isKey && r.pts == s.pts && r.fragTotal == s.fragTotal
    && r.fragments == s.fragments && r.received == s.received && r.highestFrag == s.highestFrag
    && |r.asked| == |s.asked|
  }

  lemma {:induction false} RequestHolesOk(s: Slot, missing: seq<nat>, retry: bool, now: nat)
    requires forall i :: 0 <= i < |missing| ==> missing[i] < |s.asked|
    requires AskedOk(s) && (retry ==> s.lastNack.Some?)
    ensures var r := RequestHoles(s, missing, retry, now).0;
            SameFrame(s, r) && AskedOk(r) && r.missingSince.Some?
  {
  }

  lemma {:induction false} RequestHolesAsks(s: Slot, missing: seq<nat>, retry: bool, now: nat)
    requires forall i :: 0 <= i < |missing| ==> missing[i] < |s.asked|
    requires AskedOk(s) && missing != []
    ensures var r := RequestHoles(s, missing, retry, now).0;
            r.lastNack.Some? && forall k :: k in missing ==> r.asked[k]
  {
    assert missing[0] in missing;
    var ask := RequestHoles(s, missing, retry, now).1;
    forall k | k in missing ensures s.asked[k] || (ask.Some? && k in ask.value) {
    }
  }

  lemma {:induction false} SlotOkFor(id: nat, s: Slot, r: Slot)
    requires SlotOk(id, s) && SameFrame(s, r) && AskedOk(r)
    requires s.fragTotal.None? ==> r.missingSince.Some? && r.asked == []
    requires s.complete.Some? ==> r.missingSince.None?
    ensures SlotOk(id, r)
  {
  }

  /** A turn that asks for holes is `RequestHoles`; one that finds none only clears the mark. */
  lemma {:induction false} PartsAskIs(s: Slot, tailKnown: bool, due: bool, limit: nat, now: nat)
    requires Shaped(s) && s.fragTotal.Some?
    ensures var missing := Missing(s, tailKnown);
            && (forall i :: 0 <= i < |missing| ==> missing[i] < |s.asked|)
            && RequestSlot(s, tailKnown, due, limit, now)
               == if missing == [] then (s.(missingSince := None), None)
                  else RequestHoles(s, missing, due && s.nackRounds < limit, now)
  {
    var missing := Missing(s, tailKnown);
    assert forall i :: 0 <= i < |missing| ==> missing[i] in missing;
  }

  lemma {:induction false} PartsAskOk(s: Slot, tailKnown: bool, due: bool, limit: nat, now: nat)
    requires Shaped(s) && AskedOk(s) && s.fragTotal.Some? && s.complete.None? && (due ==> s.lastNack.Some?)
    ensures SameFrame(s, RequestSlot(s, tailKnown, due, limit, now).0)
    ensures AskedOk(RequestSlot(s, tailKnown, due, limit, now).0)
  {
    PartsAskIs(s, tailKnown, due, limit, now);
    RequestHolesOk(s, Missing(s, tailKnown), due && s.nackRounds < limit, now);
  }

  lemma {:induction false} SlotAskOk(id: nat, s: Slot, tailKnown: bool, due: bool, limit: nat, now: nat)
    requires SlotOk(id, s) && Shaped(s) && s.complete.None? && (due ==> s.lastNack.Some?)
    ensures SlotOk(id, RequestSlot(s, tailKnown, due, limit, now).0)
    ensures SameFrame(s, RequestSlot(s, tailKnown, due, limit, now).0)
  {
    if s.fragTotal.Some? { PartsAskOk(s, tailKnown, due, limit, now); }
    SlotOkFor(id, s, RequestSlot(s, tailKnown, due, limit, now).0);
  }

  lemma {:induction false} RequestOneOk(w: Window, id: nat, now: nat)
    requires Base(w) && WellShaped(w) && id in w.slots
    ensures SlotOk(id, Request(w, id, now).0) && SameFrame(w.slots[id], Request(w, id, now).0)
  {
    var s := w.slots[id];
    assert SlotOk(id, s) && Shaped(s);
    if s.complete.None? {
      SlotAskOk(id, s, TailKnown(w, id), RetryDue(w, s, now), w.config.maxNackRounds, now);
    }
  }

  /** The request pass changes nothing but request bookkeeping. */
  predicate SameFrames(w: Window, w': Window) {
    && w'.slots.Keys == w.slots.Keys
    && w' == w.(slots := w'.slots)
    && forall id :: id in w.slots ==> SameFrame(w.slots[id], w'.slots[id])
  }

  lemma {:induction false} RequestBase(w: Window, now: nat)
    requires Base(w) && WellShaped(w)
    ensures var w' := RequestMissing(w, now).0;
            Base(w') && WellShaped(w') && SameFrames(w, w') && (Released(w) ==> Released(w'))
  {
    var w' := RequestMissing(w, now).0;
    forall id | id in w.slots
      ensures SlotOk(id, w'.slots[id]) && InRange(w', id) && SameFrame(w.slots[id], w'.slots[id])
    {
      RequestOneOk(w, id, now);
      assert InRange(w, id);
    }
    assert w'.slots.Keys == w.slots.Keys;
    assert Base(w');
    BaseIsShaped(w');
    if Released(w) {
      assert CompleteKeys(w') == CompleteKeys(w);
    }
  }

  lemma {:induction false} RequestOneAsks(w: Window, id: nat, now: nat)
    requires Base(w) && WellShaped(w) && id in w.slots
    requires Chased(w, id)
    ensures var r := Request(w, id, now).0;
            && Shaped(r) && r.missingSince.Some?
            && (r.fragTotal.None? ==> r.nackRounds < w.config.maxNackRounds ==> r.askedWhole)
            && (r.fragTotal.Some? ==>
                  r.lastNack.Some? && forall k :: k in Missing(r, TailKnown(w, id)) ==> k < |r.asked| && r.asked[k])
  {
    var s := w.slots[id];
    assert SlotOk(id, s) && Shaped(s);
    if s.fragTotal.Some? {
      var missing := Missing(s, TailKnown(w, id));
      assert forall i :: 0 <= i < |missing| ==> missing[i] in missing;
      RequestHolesOk(s, missing, MayRetry(w, s, now), now);
      RequestHolesAsks(s, missing, MayRetry(w, s, now), now);
    }
  }

  lemma {:induction false} RequestAsks(w: Window, now: nat)
    requires Base(w) && WellShaped(w)
    ensures var w' := RequestMissing(w, now).0; WellShaped(w') && Requested(w')
  {
    var w' := RequestMissing(w, now).0;
    RequestBase(w, now);
    forall id | id in w'.slots && Chased(w', id)
      ensures OnTheClock(w', id)
    {
      PassedOnClock(w, w', id, now);
    }
  }

  lemma {:induction false} PassedOnClock(w: Window, w': Window, id: nat, now: nat)
    requires Base(w) && WellShaped(w) && SameFrames(w, w') && WellShaped(w')
    requires id in w.slots && id in w'.slots && w'.slots[id] == Request(w, id, now).0 && Chased(w', id)
    ensures OnTheClock(w', id)
  {
    SameRecoverable(w, w', id);
    RequestOneAsks(w, id, now);
  }

  lemma {:induction false} SameRecoverable(w: Window, w': Window, id: nat)
    requires SameFrames(w, w') && id in w.slots
    ensures Recoverable(w', id) <==> Recoverable(w, id)
    ensures WorthAsking(w', w'.slots[id]) == WorthAsking(w, w.slots[id])
  {
    assert forall k :: k in w'.slots <==> k in w.slots.Keys;
  }

  // ---- giving up ----

  /** The window between dropping the frames through `id` and handing out. */
  function Broken(w: Window, id: nat, now: nat): Window {
    BreakChain(DropBelow(w, id + 1).(lost := w.lost + |LostBelow(w, id + 1)|), id + 1, now)
  }

  lemma {:induction false} BrokenBase(w: Window, id: nat, now: nat)
    requires Base(w) && Released(w) && id in w.slots
    ensures Base(Broken(w, id, now)) && Released(Broken(w, id, now))
  {
    var b := Broken(w, id, now);
    assert CompleteKeys(b) <= CompleteKeys(w);
    assert InRange(w, id);
    forall k | k in b.slots ensures SlotOk(k, b.slots[k]) && InRange(b, k) {
      assert InRange(w, k) && SlotOk(k, w.slots[k]);
    }
  }

  lemma {:induction false} BrokenRequested(w: Window, id: nat, now: nat)
    requires WellShaped(w) && Requested(w)
    ensures WellShaped(Broken(w, id, now)) && Requested(Broken(w, id, now))
  {
    var b := Broken(w, id, now);
    forall k | k in b.slots && Chased(b, k) ensures OnTheClock(b, k) {
      assert NoLaterKey(w, k) by {
        forall j | j in w.slots && j > k ensures !w.slots[j].isKey { assert j in b.slots; }
      }
      assert Chased(w, k);
      assert OnTheClock(w, k);
    }
  }

  /** Giving up hands nothing out, keeps the rest untouched, and only waits for a keyframe more. */
  lemma {:induction false} GiveUpInv(w: Window, id: nat, now: nat)
    requires Base(w) && Released(w) && WellShaped(w) && Requested(w) && id in w.slots
    ensures var (w', out) := GiveUpThrough(w, id, now);
            && w' == Broken(w, id, now)
            && out == Output([], [], [], |LostBelow(w, id + 1)|, AsksOnBreak(w))
            && Base(w') && Released(w') && WellShaped(w') && Requested(w')
  {
    BrokenBase(w, id, now);
    BrokenRequested(w, id, now);
    ReleaseIdle(Broken(w, id, now));
  }

  lemma {:induction false} EnforceInv(w: Window, now: nat)
    requires Base(w) && Released(w) && WellShaped(w) && Requested(w)
    ensures var (w', out) := EnforceCapacity(w, now);
            && Inv(w')
            && out.frames == [] && out.arrived == [] && out.nacks == []
            && w'.highest == w.highest && w'.config == w.config && w'.rtt == w.rtt
            && (w.nextId.Some? ==> w'.nextId.Some? && w'.nextId.value >= w.nextId.value)
            && (!w'.needKey ==> w' == w)
            && (forall id :: id in w'.slots ==> id in w.slots && w'.slots[id] == w.slots[id])
            && (forall id :: id in w.slots && id !in w'.slots ==> w'.nextId.Some? && id < w'.nextId.value)
    decreases w.slots.Keys
  {
    if |w.slots| > w.config.maxHeld {
      assert w.slots.Keys != {};
      var oldest := Least(w.slots.Keys);
      GiveUpKeeps(w, oldest, now);
      GiveUpInv(w, oldest, now);
      EnforceInv(GiveUpThrough(w, oldest, now).0, now);
    }
  }

  // ---- taking in a fragment ----

  /** A sized, incomplete slot, possibly with nothing in it yet. */
  predicate Open(s: Slot) {
    && s.fragTotal.Some? && s.complete.None?
    && |s.fragments| == |s.asked| == s.fragTotal.value
    && s.received == Arrived(s.fragments) < s.fragTotal.value
    && (s.received > 0 ==> s.highestFrag < |s.fragments| && s.fragments[s.highestFrag].Some?)
    && (forall i :: 0 <= i < |s.fragments| && (s.received == 0 || s.highestFrag < i) ==> s.fragments[i].None?)
    && AskedOk(s)
  }

  lemma {:induction false} StoreOpen(s: Slot, h: Header, payload: Bytes)
    requires Open(s) && h.fragId < |s.fragments| && s.fragments[h.fragId].None?
    ensures var r := Store(s, h, payload);
            && r.received == Arrived(r.fragments) <= r.fragTotal.value
            && (!Full(r) ==> Partial(r)) && AskedOk(r)
  {
    ArrivedStore(s.fragments, h.fragId, payload);
  }

  lemma {:induction false} StoreOk(id: nat, s: Slot, h: Header, payload: Bytes)
    requires Open(s) && h.fragId < |s.fragments| && s.fragments[h.fragId].None?
    ensures var r := Store(s, h, payload);
            SlotOk(id, if Full(r) then Finish(r, id) else r)
  {
    StoreOpen(s, h, payload);
  }

  lemma {:induction false} SizedOpen(s: Slot, total: u16)
    requires s.fragTotal.None? && s.complete.None? && s.received == 0 && s.asked == [] && AskedOk(s) && total > 0
    ensures Open(Sized(s, total))
  {
    ArrivedNone(EmptyTable(total));
  }

  /** The slot an accepted fragment goes into has room for it. */
  lemma {:induction false} SlotForOpen(w: Window, frameId: nat, total: u16)
    requires Base(w) && WellShaped(w) && total > 0
    ensures var s := SlotFor(w, frameId, total);
            && s.fragTotal.Some?
            && (s.complete.None? ==> Open(s))
            && (frameId in w.slots && w.slots[frameId].fragTotal.Some? ==> s == w.slots[frameId])
  {
    if frameId in w.slots {
      assert SlotOk(frameId, w.slots[frameId]);
      if w.slots[frameId].fragTotal.None? { SizedOpen(w.slots[frameId], total); }
    } else {
      SizedOpen(UNKNOWN, total);
    }
  }

  lemma {:induction false} AcceptBase(w: Window, slot: Slot, h: Header, payload: Bytes)
    requires Base(w) && WellShaped(w) && InRange(w, h.frameId) && w.keyAsked.Some?
    requires Open(slot) && h.fragId < |slot.fragments| && slot.fragments[h.fragId].None?
    ensures Base(Accept(w, slot, h, payload).0)
  {
    var w' := Accept(w, slot, h, payload).0;
    StoreOk(h.frameId, slot, h, payload);
    forall id | id in w'.slots ensures SlotOk(id, w'.slots[id]) && InRange(w', id) {
      if id != h.frameId { assert SlotOk(id, w.slots[id]) && InRange(w, id); }
    }
  }

  lemma {:induction false} MarkTailOk(id: nat, s: Slot, now: nat)
    requires SlotOk(id, s) && Shaped(s)
    ensures SlotOk(id, MarkTail(s, now)) && SameFrame(s, MarkTail(s, now))
  {
  }

  lemma {:induction false} MarkTailsBase(w: Window, now: nat, highest: nat)
    requires Base(w) && WellShaped(w) && w.highest.Some? && highest >= w.highest.value
    ensures Base(MarkTails(w, now).(highest := Some(highest)))
  {
    var w' := MarkTails(w, now).(highest := Some(highest));
    forall id | id in w'.slots ensures SlotOk(id, w'.slots[id]) && InRange(w', id) {
      assert SlotOk(id, w.slots[id]) && InRange(w, id);
      MarkTailOk(id, w.slots[id], now);
    }
    if w'.slots != map[] { var k :| k in w'.slots; assert k in w.slots; }
  }

  lemma {:induction false} FillGapBase(w: Window, highest: nat, frameId: nat, now: nat)
    requires Base(w) && w.highest == Some(frameId) && w.keyAsked.Some?
    requires forall id :: id in w.slots ==> id <= highest
    ensures Base(FillGap(w, highest, frameId, now))
  {
    var w' := FillGap(w, highest, frameId, now);
    forall id | id in w'.slots ensures SlotOk(id, w'.slots[id]) && InRange(w', id) {
      if id in w.slots {
        assert SlotOk(id, w.slots[id]) && InRange(w, id);
      }
    }
  }

  lemma {:induction false} DropBelowBase(w: Window, id: nat)
    requires Base(w)
    ensures Base(DropBelow(w, id))
  {
    var w' := DropBelow(w, id);
    forall k | k in w'.slots ensures SlotOk(k, w'.slots[k]) && InRange(w', k) {
      assert SlotOk(k, w.slots[k]) && InRange(w, k);
    }
    if w'.slots != map[] { var k :| k in w'.slots; assert k in w.slots; }
  }

  lemma {:induction false} DiscontinuityBase(w: Window, frameId: nat, isKey: bool, now: nat)
    requires Base(w) && w.highest == Some(frameId) && w.keyAsked.Some?
    ensures Base(Discontinuity(w, frameId, isKey, now).0)
  {
    DropBelowBase(w, frameId);
    var w' := Discontinuity(w, frameId, isKey, now).0;
    forall k | k in w'.slots ensures SlotOk(k, w'.slots[k]) && InRange(w', k) {
      assert SlotOk(k, w.slots[k]) && InRange(w, k);
    }
  }

  lemma {:induction false} NoteBase(w: Window, frameId: nat, isKey: bool, now: nat)
    requires Base(w) && WellShaped(w) && !Stale(w, frameId)
    ensures var w' := NoteNewFrame(w, frameId, isKey, now).0;
            && Base(w') && InRange(w', frameId) && w'.keyAsked.Some?
            && (w.highest.Some? && frameId <= w.highest.value ==> w' == NoteAsked(w, now))
            && (w.highest.None? || frameId > w.highest.value ==> w'.highest == Some(frameId) && frameId !in w'.slots)
            && w'.config == w.config
  {
    var w0 := NoteAsked(w, now);
    assert Base(w0) by {
      forall id | id in w0.slots ensures SlotOk(id, w0.slots[id]) && InRange(w0, id) {
        assert SlotOk(id, w.slots[id]) && InRange(w, id);
      }
    }
    forall id | id in w0.slots ensures w0.highest.Some? && id <= w0.highest.value {
      assert InRange(w0, id);
    }
    if w0.highest.None? {
      assert w0.slots == map[];
    } else if frameId > w0.highest.value {
      MarkTailsBase(w0, now, frameId);
      var w1 := MarkTails(w0, now).(highest := Some(frameId));
      if frameId - w0.highest.value - 1 == 0 {
      } else if frameId - w0.highest.value - 1 > w.config.maxGap {
        DiscontinuityBase(w1, frameId, isKey, now);
      } else {
        FillGapBase(w1, w0.highest.value, frameId, now);
      }
    }
  }

  // ---- the calls ----

  lemma {:induction false} NoteKeepsWaiting(w: Window, frameId: nat, isKey: bool, now: nat)
    requires WellShaped(w)
    ensures w.needKey ==> NoteNewFrame(w, frameId, isKey, now).0.needKey
  {
  }

  lemma {:induction false} StoredBase(w: Window, h: Header, payload: Bytes, now: nat)
    requires Base(w) && WellShaped(w) && Accepted(w, h, now)
    ensures Base(Stored(w, h, payload, now).0)
  {
    NoteBase(w, h.frameId, IsKeyframe(h), now);
    NoteKeepsShape(w, h.frameId, IsKeyframe(h), now);
    var w1 := NoteNewFrame(w, h.frameId, IsKeyframe(h), now).0;
    SlotForOpen(w1, h.frameId, h.fragTotal);
    var slot := SlotFor(w1, h.frameId, h.fragTotal);
    AcceptBase(w1, slot, h, payload);
  }

  /** A fragment that is not accepted leaves every frame as it was; at most the keyframe clock starts. */
  lemma {:induction false} InsertRefused(w: Window, h: Header, payload: Bytes, now: nat)
    requires Base(w) && WellShaped(w) && !Accepted(w, h, now)
    ensures var (w', out, r) := Insert(w, h, payload, now);
            && out == NOTHING
            && (w' == w || w' == NoteAsked(w, now))
  {
    if Validate(h).Ok? && !Stale(w, h.frameId) {
      NoteBase(w, h.frameId, IsKeyframe(h), now);
      NoteKeepsShape(w, h.frameId, IsKeyframe(h), now);
      var w1 := NoteNewFrame(w, h.frameId, IsKeyframe(h), now).0;
      SlotForOpen(w1, h.frameId, h.fragTotal);
      var slot := SlotFor(w1, h.frameId, h.fragTotal);
      assert h.frameId in w1.slots && w1.slots[h.frameId] == slot;
    }
  }

  lemma {:induction false} NoteAskedInv(w: Window, now: nat)
    requires Inv(w)
    ensures Inv(NoteAsked(w, now))
  {
    var w' := NoteAsked(w, now);
    forall id | id in w'.slots ensures SlotOk(id, w'.slots[id]) && InRange(w', id) {
      assert SlotOk(id, w.slots[id]) && InRange(w, id);
    }
    assert CompleteKeys(w') == CompleteKeys(w);
    BaseIsShaped(w);
    BaseIsShaped(w');
    forall id | id in w'.slots && Chased(w', id) ensures OnTheClock(w', id) {
      assert Chased(w, id);
      assert OnTheClock(w, id);
    }
  }

  /** The window once everything the decoder can take is handed out. */
  lemma {:induction false} ReleaseStage(w: Window)
    requires Base(w)
    ensures var w1 := Release(w).0;
            && Base(w1) && Released(w1) && WellShaped(w1)
            && w1 == w.(slots := w1.slots, nextId := w1.nextId, needKey := w1.needKey, keyAsked := w1.keyAsked)
  {
    ReleaseKeeps(w);
    ReleaseSafeAny(w);
    BaseIsShaped(Release(w).0);
  }

  /** The window once everything worth asking for is asked for. */
  lemma {:induction false} RequestStage(w: Window, now: nat)
    requires Base(w) && WellShaped(w)
    ensures var w1 := RequestMissing(w, now).0;
            && Base(w1) && WellShaped(w1) && Requested(w1) && SameFrames(w, w1) && (Released(w) ==> Released(w1))
  {
    RequestBase(w, now);
    RequestAsks(w, now);
  }

  /** A call settles by handing out, asking, and keeping within bounds; only the first hands out frames. */
  lemma {:induction false} SettleStages(w: Window, now: nat)
    requires Base(w) && WellShaped(w)
    ensures WellShaped(Release(w).0)
    ensures var w1 := Release(w).0; var (w3, out) := Settle(w, now);
            && w3 == EnforceCapacity(RequestMissing(w1, now).0, now).0
            && out.frames == Release(w).1 && out.arrived == [] && out.nacks == RequestMissing(w1, now).1
  {
    ReleaseStage(w);
    var w1 := Release(w).0;
    RequestStage(w1, now);
    EnforceInv(RequestMissing(w1, now).0, now);
    PlusQuiet(Output(Release(w).1, [], RequestMissing(w1, now).1, 0, false),
              EnforceCapacity(RequestMissing(w1, now).0, now).1);
  }

  lemma {:induction false} PlusQuiet(a: Output, b: Output)
    requires b.frames == [] && b.arrived == [] && b.nacks == []
    ensures Plus(a, b).frames == a.frames && Plus(a, b).arrived == a.arrived && Plus(a, b).nacks == a.nacks
  {
  }

  lemma {:induction false} SettleInv(w: Window, now: nat)
    requires Base(w) && WellShaped(w)
    ensures Inv(Settle(w, now).0) && Settle(w, now).1.frames == Release(w).1
  {
    ReleaseStage(w);
    RequestStage(Release(w).0, now);
    SettleStages(w, now);
    EnforceInv(RequestMissing(Release(w).0, now).0, now);
  }

  lemma {:induction false} ReleaseSafeAny(w: Window)
    requires Base(w)
    ensures Base(Release(w).0) && Released(Release(w).0)
    decreases w.slots.Keys
  {
    if NextReady(w) {
      TakeNextShrinks(w);
      TakeNextBase(w);
      ReleaseSafeAny(TakeNext(w));
    } else if CompleteKeys(w) != {} {
      var id := Least(CompleteKeys(w));
      TakeKeyShrinks(w, id);
      TakeKeyBase(w, id);
      ReleaseSafeAny(TakeKey(w, id));
    }
  }

  lemma {:induction false} InsertInv(w: Window, h: Header, payload: Bytes, now: nat)
    requires Inv(w) && WellShaped(w)
    ensures Inv(Insert(w, h, payload, now).0)
  {
    if Accepted(w, h, now) {
      StoredBase(w, h, payload, now);
      SettleInv(Stored(w, h, payload, now).0, now);
    } else {
      InsertRefused(w, h, payload, now);
      NoteAskedInv(w, now);
    }
  }
}
