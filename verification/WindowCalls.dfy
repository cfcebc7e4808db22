/** What one call takes in and hands out: exactly which frames are released, and which fragments are refused. */
module WindowCalls {
  import opened Prelude
  import opened Wire
  import opened Fragments
  import opened WindowModel
  import opened WindowSteps
  import opened WindowInvariant
  import opened WindowRuns

  // ---- which frames are handed out ----

  function Ids(fs: seq<Frame>): set<nat> {
    set k | 0 <= k < |fs| :: fs[k].id
  }

  lemma {:induction false} IdsOf(f: Frame, rest: seq<Frame>)
    ensures Ids([f] + rest) == {f.id} + Ids(rest)
  {
    var fs := [f] + rest;
    assert fs[0] == f;
    forall k | 0 <= k < |rest| ensures rest[k].id in Ids(fs) {
      assert fs[k + 1] == rest[k];
    }
  }

  /** Whether a frame whose predecessors `out` go out goes out too. */
  predicate GoesOut(w: Window, out: set<nat>, id: nat) {
    && id in w.slots && w.slots[id].complete.Some?
    && (w.slots[id].isKey || (id > 0 && id - 1 in out) || (!w.needKey && w.nextId == Some(id)))
  }

  /** `out` is the complete keyframes, the frame an intact chain awaits, and each frame whose predecessor is in it. */
  ghost predicate GoOut(w: Window, out: set<nat>) {
    forall id: nat :: id in out <==> GoesOut(w, out, id)
  }

  /** What remains after the awaited frame, or a keyframe, `id` is taken. */
  ghost predicate TakenAt(w: Window, id: nat, w1: Window) {
    && id in w.slots && !w1.needKey && w1.nextId == Some(id + 1)
    && (forall k :: k in w1.slots <==> k in w.slots && k > id) && forall k :: k in w1.slots ==> w1.slots[k] == w.slots[k]
  }

  /** The frames below the one taken are not to go out. */
  ghost predicate NoneBefore(w: Window, id: nat) {
    forall k :: k in w.slots && k < id && w.slots[k].complete.Some? ==>
      !w.slots[k].isKey && (w.needKey || w.nextId != Some(k))
  }

  lemma {:induction false} OutAfter(w: Window, id: nat, w1: Window, out: set<nat>)
    requires TakenAt(w, id, w1) && NoneBefore(w, id) && GoesOut(w, {}, id)
    requires !w.needKey ==> w.nextId.Some? && (w.nextId.value == id || !NextReady(w))
    requires GoOut(w1, out)
    ensures GoOut(w, {id} + out)
  {
    forall k: nat ensures k in {id} + out <==> GoesOut(w, {id} + out, k) {
      if k > id {
        assert k in out <==> GoesOut(w1, out, k);
      } else if k < id {
        assert k !in out && (k > 0 ==> k - 1 !in out);
      }
    }
  }

  lemma {:induction false} AwaitedTaken(w: Window)
    requires Base(w) && NextReady(w)
    ensures var n := w.nextId.value; TakenAt(w, n, TakeNext(w)) && NoneBefore(w, n) && GoesOut(w, {}, n)
  {
    assert forall k :: k in w.slots ==> InRange(w, k);
  }

  lemma {:induction false} KeyTaken(w: Window, id: nat)
    requires Base(w) && !NextReady(w) && IsLeast(id, CompleteKeys(w))
    ensures TakenAt(w, id, TakeKey(w, id)) && NoneBefore(w, id) && GoesOut(w, {}, id)
  {
    assert SlotOk(id, w.slots[id]);
    forall k | k in w.slots && k < id && w.slots[k].complete.Some?
      ensures !w.slots[k].isKey && (w.needKey || w.nextId != Some(k))
    {
      assert SlotOk(k, w.slots[k]);
      assert w.slots[k].isKey ==> k in CompleteKeys(w);
    }
  }

  lemma {:induction false} NothingGoesOut(w: Window)
    requires Base(w) && !NextReady(w) && CompleteKeys(w) == {}
    ensures GoOut(w, {})
  {
    forall k: nat ensures !GoesOut(w, {}, k) {
      if k in w.slots && w.slots[k].complete.Some? {
        assert SlotOk(k, w.slots[k]);
        assert k !in CompleteKeys(w);
      }
    }
  }

  /**
   * A release hands out, of the complete frames held, every keyframe, the frame an intact chain awaits, and
   * each frame whose predecessor it hands out; no other. Each is what its slot holds.
   */
  lemma {:induction false} ReleaseIs(w: Window)
    requires Base(w)
    ensures GoOut(w, Ids(Release(w).1))
    decreases w.slots.Keys
  {
    if NextReady(w) {
      var n := w.nextId.value;
      assert SlotOk(n, w.slots[n]);
      TakeNextShrinks(w);
      TakeNextBase(w);
      ReleaseIs(TakeNext(w));
      AwaitedTaken(w);
      var rest := Release(TakeNext(w)).1;
      OutAfter(w, n, TakeNext(w), Ids(rest));
      IdsOf(w.slots[n].complete.value, rest);
    } else if CompleteKeys(w) != {} {
      var id := Least(CompleteKeys(w));
      assert SlotOk(id, w.slots[id]);
      TakeKeyShrinks(w, id);
      TakeKeyBase(w, id);
      ReleaseIs(TakeKey(w, id));
      KeyTaken(w, id);
      var rest := Release(TakeKey(w, id)).1;
      OutAfter(w, id, TakeKey(w, id), Ids(rest));
      IdsOf(w.slots[id].complete.value, rest);
    } else {
      NothingGoesOut(w);
      assert Ids([]) == {};
    }
  }

  lemma {:induction false} ReleaseContents(w: Window)
    requires Base(w)
    ensures forall k :: 0 <= k < |Release(w).1| ==>
              var f := Release(w).1[k]; f.id in w.slots && w.slots[f.id].complete == Some(f)
    decreases w.slots.Keys
  {
    if NextReady(w) {
      assert SlotOk(w.nextId.value, w.slots[w.nextId.value]);
      TakeNextShrinks(w);
      TakeNextBase(w);
      ReleaseContents(TakeNext(w));
    } else if CompleteKeys(w) != {} {
      var id := Least(CompleteKeys(w));
      assert SlotOk(id, w.slots[id]);
      TakeKeyShrinks(w, id);
      TakeKeyBase(w, id);
      ReleaseContents(TakeKey(w, id));
    }
  }

  /** That is one set of frames and no other. */
  lemma {:induction false} GoOutIsOne(w: Window, a: set<nat>, b: set<nat>, id: nat)
    requires GoOut(w, a) && GoOut(w, b)
    ensures id in a <==> id in b
  {
    assert id in a <==> GoesOut(w, a, id);
    assert id in b <==> GoesOut(w, b, id);
    if id > 0 { GoOutIsOne(w, a, b, id - 1); }
  }

  /** What a fragment hands out is that, of the window with the fragment stored. */
  lemma {:induction false} FragmentHandsOut(c: Config, es: seq<Event>, h: Header, payload: Bytes, now: nat)
    requires Accepted(Run(c, es).0, h, now)
    ensures var w := Run(c, es).0; var (fs, w1) := (Insert(w, h, payload, now).1.frames, Stored(w, h, payload, now).0);
            && GoOut(w1, Ids(fs)) && (forall j, k :: 0 <= j < k < |fs| ==> fs[j].id < fs[k].id)
            && forall k :: 0 <= k < |fs| ==> fs[k].id in w1.slots && w1.slots[fs[k].id].complete == Some(fs[k])
  {
    var w := Run(c, es).0;
    var w1 := Stored(w, h, payload, now).0;
    StoredBase(w, h, payload, now);
    ReleaseIs(w1);
    ReleaseContents(w1);
    ReleaseAscends(w1);
    SettleStages(w1, now);
    InsertFrames(w, h, payload, now);
  }

  lemma {:induction false} InsertFrames(w: Window, h: Header, payload: Bytes, now: nat)
    requires WellShaped(w) && Accepted(w, h, now)
    ensures Insert(w, h, payload, now).1.frames == Settle(Stored(w, h, payload, now).0, now).1.frames
  {
  }

  /** Ids rise, and each is of a slot. */
  predicate InOrder(w: Window, fs: seq<Frame>) {
    && (forall k :: 0 <= k < |fs| ==> fs[k].id in w.slots)
    && forall j, k :: 0 <= j < k < |fs| ==> fs[j].id < fs[k].id
  }

  lemma {:induction false} OrderAfter(w: Window, f: Frame, w1: Window, rest: seq<Frame>)
    requires TakenAt(w, f.id, w1) && InOrder(w1, rest)
    ensures InOrder(w, [f] + rest)
  {
    var fs := [f] + rest;
    forall k | 0 <= k < |fs| ensures fs[k].id in w.slots && (k > 0 ==> fs[k].id > f.id) {
      if k > 0 { assert fs[k] == rest[k - 1]; }
    }
    forall j, k | 0 <= j < k < |fs| ensures fs[j].id < fs[k].id {
      if j > 0 { assert fs[j] == rest[j - 1] && fs[k] == rest[k - 1]; }
    }
  }

  lemma {:induction false} ReleaseAscends(w: Window)
    requires Base(w)
    ensures InOrder(w, Release(w).1)
    decreases w.slots.Keys
  {
    if NextReady(w) {
      var n := w.nextId.value;
      assert SlotOk(n, w.slots[n]);
      TakeNextShrinks(w);
      TakeNextBase(w);
      ReleaseAscends(TakeNext(w));
      AwaitedTaken(w);
      OrderAfter(w, w.slots[n].complete.value, TakeNext(w), Release(TakeNext(w)).1);
    } else if CompleteKeys(w) != {} {
      var id := Least(CompleteKeys(w));
      assert SlotOk(id, w.slots[id]);
      TakeKeyShrinks(w, id);
      TakeKeyBase(w, id);
      ReleaseAscends(TakeKey(w, id));
      KeyTaken(w, id);
      OrderAfter(w, w.slots[id].complete.value, TakeKey(w, id), Release(TakeKey(w, id)).1);
    }
  }

  // ---- which fragments are refused ----

  /**
   * In every reachable state a fragment is an error if its header is invalid, or if it is not stale and gives
   * its frame another total than the fragments before it did; nothing else is.
   */
  lemma {:induction false} InsertErrors(c: Config, es: seq<Event>, h: Header, payload: Bytes, now: nat)
    ensures var w := Run(c, es).0; var id: nat := h.frameId;
            Insert(w, h, payload, now).2 ==
              if Validate(h).Err? then Err(InvalidFragmentBounds(h.fragId, h.fragTotal))
              else if (w.nextId.Some? ==> id >= w.nextId.value) && id in w.slots
                      && w.slots[id].fragTotal.Some? && w.slots[id].fragTotal.value != h.fragTotal
                then Err(FragmentTotalMismatch(id, w.slots[id].fragTotal.value, h.fragTotal))
              else Ok(())
  {
    var w := Run(c, es).0;
    if Validate(h).Ok? && !Stale(w, h.frameId) { PlaceErrors(w, h, payload, now); }
  }

  lemma {:induction false} SlotFound(w: Window, h: Header, now: nat)
    requires Base(w) && WellShaped(w) && !Stale(w, h.frameId)
    ensures var w1 := NoteNewFrame(w, h.frameId, IsKeyframe(h), now).0; var id: nat := h.frameId;
            && WellShaped(w1)
            && SlotFor(w1, id, h.fragTotal)
               == if id in w.slots && w.slots[id].fragTotal.Some? then w.slots[id]
                  else Sized(if id in w.slots then w.slots[id] else UNKNOWN, h.fragTotal)
  {
    NoteKeepsShape(w, h.frameId, IsKeyframe(h), now);
    NoteBase(w, h.frameId, IsKeyframe(h), now);
    assert forall id :: id in w.slots ==> InRange(w, id);
  }

  lemma {:induction false} PlaceErrors(w: Window, h: Header, payload: Bytes, now: nat)
    requires Base(w) && WellShaped(w) && Validate(h).Ok? && !Stale(w, h.frameId)
    ensures var id: nat := h.frameId;
            Insert(w, h, payload, now).2 ==
              if id in w.slots && w.slots[id].fragTotal.Some? && w.slots[id].fragTotal.value != h.fragTotal
              then Err(FragmentTotalMismatch(id, w.slots[id].fragTotal.value, h.fragTotal))
              else Ok(())
  {
    SlotFound(w, h, now);
  }

  /** And a valid, current fragment is taken in unless its frame is complete, its total differs or it is here already. */
  lemma {:induction false} AcceptedIff(c: Config, es: seq<Event>, h: Header, now: nat)
    ensures var w := Run(c, es).0; var id: nat := h.frameId;
            Accepted(w, h, now) <==>
              && Validate(h).Ok? && (w.nextId.Some? ==> id >= w.nextId.value)
              && (id in w.slots && w.slots[id].fragTotal.Some? ==>
                    && w.slots[id].fragTotal.value == h.fragTotal && w.slots[id].complete.None?
                    && h.fragId < |w.slots[id].fragments| && w.slots[id].fragments[h.fragId].None?)
  {
    var w := Run(c, es).0;
    if Validate(h).Ok? && !Stale(w, h.frameId) {
      SlotFound(w, h, now);
      if h.frameId in w.slots { assert SlotOk(h.frameId, w.slots[h.frameId]) && Shaped(w.slots[h.frameId]); }
    }
  }
}
