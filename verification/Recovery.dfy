/**
 * A request and its answer: what the cache sends back for a frame's missing fragments completes
 * exactly that frame, and hands it out at once when nothing else is in the way.
 */
module Recovery {
  import opened Prelude
  import opened Wire
  import opened Fragments
  import opened Sender
  import opened WindowModel
  import opened WindowSteps
  import opened WindowInvariant
  import opened WindowRuns
  import opened EndToEnd
  import Cache = RetransmitCache

  // ---- holes ----

  lemma {:induction false} ArrivedSnoc(t: Table, x: Option<Bytes>)
    ensures Arrived(t + [x]) == Arrived(t) + if x.Some? then 1 else 0
  {
    if t == [] {
      assert t + [x] == [x] && [x][1..] == [];
      assert Arrived([]) == 0;
    } else {
      assert (t + [x])[1..] == t[1..] + [x];
      ArrivedSnoc(t[1..], x);
    }
  }

  /** Every position is either a hole or has arrived. */
  lemma {:induction false} HolesCount(t: Table, n: nat)
    requires n <= |t|
    ensures |Holes(t, n)| + Arrived(t[..n]) == n
  {
    if n > 0 {
      HolesCount(t, n - 1);
      assert t[..n] == t[..n - 1] + [t[n - 1]];
      ArrivedSnoc(t[..n - 1], t[n - 1]);
    }
  }

  /** The fragments a slot still needs, in index order: what a request names and its answer holds. */
  function Wants(s: Slot, total: nat): seq<nat> {
    if s.fragTotal.None? then seq(total, i => i) else Holes(s.fragments, Min(total, |s.fragments|))
  }

  /** Fragment `i` of a frame of `total` has not arrived. */
  predicate Lacks(s: Slot, total: nat, i: nat) {
    i < total && (s.fragTotal.None? || (i < |s.fragments| && s.fragments[i].None?))
  }

  predicate Distinct(order: seq<nat>) {
    forall i, j :: 0 <= i < j < |order| ==> order[i] != order[j]
  }

  /** `order` names each fragment the slot lacks once, and nothing else. */
  ghost predicate LacksExactly(s: Slot, total: nat, order: seq<nat>) {
    Distinct(order) && forall i: nat :: i in order <==> Lacks(s, total, i)
  }

  lemma {:induction false} WantsLack(s: Slot, total: nat)
    requires s.fragTotal.Some? ==> |s.fragments| == total
    ensures LacksExactly(s, total, Wants(s, total))
  {
    if s.fragTotal.None? {
      forall i: nat ensures i in Wants(s, total) <==> i < total {
        if i < total { assert Wants(s, total)[i] == i; }
      }
    }
  }

  // ---- one fragment of the answer ----

  /** A frame being recovered: held, incomplete, and older than the newest seen. */
  predicate Recovering(sent: SentLog, w: Window, id: nat)
    requires GoodLog(sent)
  {
    && Inv(w) && WellShaped(w) && Faithful(sent, w)
    && id in sent && id in w.slots && w.slots[id].complete.None? && TailKnown(w, id)
  }

  function Total(sent: SentLog, id: nat): nat
    requires GoodLog(sent) && id in sent
  {
    |Parts(sent[id])|
  }

  lemma {:induction false} RecoveringShape(sent: SentLog, w: Window, id: nat)
    requires GoodLog(sent) && Recovering(sent, w, id)
    ensures var s := w.slots[id]; s.fragTotal.Some? ==> s.fragTotal.value == Total(sent, id) == |s.fragments|
  {
    assert SlotFaithful(sent, id, w.slots[id]);
  }

  // ---- one fragment of a held frame ----

  /** The decoder can take frame `id` the moment it is complete. */
  predicate Awaited(w: Window, id: nat, isKey: bool) {
    isKey || (!w.needKey && w.nextId == Some(id))
  }

  /** A valid fragment that a held, incomplete frame lacks. */
  predicate Lacking(w: Window, h: Header) {
    && Inv(w) && WellShaped(w) && Validate(h).Ok?
    && h.frameId in w.slots
    && var s := w.slots[h.frameId];
       && s.complete.None?
       && (s.fragTotal.Some? ==> s.fragTotal.value == h.fragTotal == |s.fragments| && s.fragments[h.fragId].None?)
  }

  /** The slot once such a fragment is in it. */
  function With(w: Window, h: Header, payload: Bytes): Slot
    requires Lacking(w, h)
  {
    var s := w.slots[h.frameId];
    Store(if s.fragTotal.None? then Sized(s, h.fragTotal) else s, h, payload)
  }

  lemma {:induction false} NoteHeld(w: Window, h: Header, now: nat)
    requires Lacking(w, h)
    ensures !Stale(w, h.frameId) && NoteNewFrame(w, h.frameId, IsKeyframe(h), now) == (NoteAsked(w, now), NO_LOSS)
  {
    assert InRange(w, h.frameId);
  }

  lemma {:induction false} LackingAccepted(w: Window, h: Header, payload: Bytes, now: nat)
    requires Lacking(w, h)
    ensures Accepted(w, h, now)
    ensures WellShaped(NoteAsked(w, now))
    ensures var slot := SlotFor(NoteAsked(w, now), h.frameId, h.fragTotal);
            && Open(slot) && h.fragId < |slot.fragments| && slot.fragments[h.fragId].None?
            && Store(slot, h, payload) == With(w, h, payload)
            && Stored(w, h, payload, now) == Accept(NoteAsked(w, now), slot, h, payload)
  {
    NoteHeld(w, h, now);
    NoteAskedInv(w, now);
    var w1 := NoteAsked(w, now);
    BaseIsShaped(w1);
    SlotForOpen(w1, h.frameId, h.fragTotal);
    assert SlotOk(h.frameId, w.slots[h.frameId]);
  }

  /** It changes only that slot, and may start the keyframe clock. */
  lemma {:induction false} LackingStored(w: Window, h: Header, payload: Bytes, now: nat)
    requires Lacking(w, h)
    ensures Accepted(w, h, now)
    ensures var r := With(w, h, payload); var (w', arrived) := Stored(w, h, payload, now);
            && w'.slots == w.slots[h.frameId as nat := if Full(r) then Finish(r, h.frameId) else r]
            && w'.nextId == w.nextId && w'.needKey == w.needKey && w'.highest == w.highest && w'.config == w.config
            && w'.rtt == w.rtt
            && arrived == (if Full(r) then [ArrivalOf(r, h.frameId)] else [])
            && Base(w') && WellShaped(w')
  {
    LackingAccepted(w, h, payload, now);
    NoteAskedInv(w, now);
    var w1 := NoteAsked(w, now);
    assert InRange(w1, h.frameId) by { assert InRange(w, h.frameId); }
    AcceptBase(w1, SlotFor(w1, h.frameId, h.fragTotal), h, payload);
  }

  /** A window that only changed one slot, and not to a complete one, has still nothing to hand out. */
  lemma {:induction false} StillReleased(w: Window, w': Window, id: nat)
    requires Released(w) && id in w.slots && w'.nextId == w.nextId && w'.needKey == w.needKey
    requires id in w'.slots && w'.slots == w.slots[id := w'.slots[id]]
    requires w'.slots[id].complete.Some? ==> !w'.slots[id].isKey && (w.needKey || w.nextId != Some(id))
    ensures Released(w')
  {
    forall k | k in CompleteKeys(w') ensures k in CompleteKeys(w) {
    }
  }

  /** Settling a window with nothing to hand out and within its bound only asks. */
  lemma {:induction false} SettleIdle(w: Window, now: nat)
    requires Base(w) && WellShaped(w) && Released(w) && |w.slots| <= w.config.maxHeld
    ensures var (w', out) := Settle(w, now);
            w' == RequestMissing(w, now).0 && out.frames == [] && Inv(w') && SameFrames(w, w')
  {
    ReleaseIdle(w);
    RequestStage(w, now);
    SettleStages(w, now);
    var w1 := RequestMissing(w, now).0;
    assert |w1.slots.Keys| == |w.slots.Keys|;
    SettleInv(w, now);
  }

  /** Before the last fragment: nothing is handed out, and the frame stays with one fragment more. */
  lemma {:induction false} LackingPart(w: Window, h: Header, payload: Bytes, now: nat)
    requires Lacking(w, h) && !Full(With(w, h, payload))
    ensures var (w', out, _) := Insert(w, h, payload, now);
            && out.frames == [] && out.arrived == []
            && Inv(w') && WellShaped(w')
            && w'.slots.Keys == w.slots.Keys && SameFrame(With(w, h, payload), w'.slots[h.frameId])
            && w'.nextId == w.nextId && w'.needKey == w.needKey && w'.highest == w.highest && w'.config == w.config
            && (NeededResend(w.slots[h.frameId]) ==> NeededResend(w'.slots[h.frameId]))
  {
    var id: nat := h.frameId;
    LackingStored(w, h, payload, now);
    var w1 := Stored(w, h, payload, now).0;
    assert |w1.slots.Keys| == |w.slots.Keys| by { assert w1.slots.Keys == w.slots.Keys; }
    StillReleased(w, w1, id);
    SettleIdle(w1, now);
    var w2 := Settle(w1, now).0;
    BaseIsShaped(w2);
    assert w2.slots.Keys == w.slots.Keys;
    assert SlotOk(id, w1.slots[id]);
    RequestKeepsNeed(w1, id, now);
  }

  /** The window once such a fragment is stored only needs its request pass. */
  lemma {:induction false} LackingIdle(w: Window, h: Header, payload: Bytes, now: nat)
    requires Lacking(w, h) && !Full(With(w, h, payload))
    ensures Accepted(w, h, now)
    ensures var w1 := Stored(w, h, payload, now).0;
            && Base(w1) && WellShaped(w1) && Released(w1) && |w1.slots| <= w1.config.maxHeld
            && w1.slots == w.slots[h.frameId as nat := With(w, h, payload)]
  {
    LackingStored(w, h, payload, now);
    var w1 := Stored(w, h, payload, now).0;
    assert w1.slots.Keys == w.slots.Keys;
    assert |w1.slots.Keys| == |w.slots.Keys|;
    StillReleased(w, w1, h.frameId);
  }

  lemma {:induction false} OthersSame(w: Window, w1: Window, w2: Window, id: nat, s: Slot)
    requires id in w.slots && w1.slots == w.slots[id := s] && SameFrames(w1, w2)
    ensures forall j :: j in w2.slots && j != id ==> j in w.slots && SameFrame(w.slots[j], w2.slots[j])
  {
    assert forall j :: j in w2.slots ==> j in w1.slots.Keys;
  }

  /** And every other frame stays as it was. */
  lemma {:induction false} LackingOthers(w: Window, h: Header, payload: Bytes, now: nat)
    requires Lacking(w, h) && !Full(With(w, h, payload))
    ensures var w' := Insert(w, h, payload, now).0;
            forall j :: j in w'.slots && j != h.frameId ==> j in w.slots && SameFrame(w.slots[j], w'.slots[j])
  {
    LackingIdle(w, h, payload, now);
    var w1 := Stored(w, h, payload, now).0;
    SettleIdle(w1, now);
    OthersSame(w, w1, Settle(w1, now).0, h.frameId, With(w, h, payload));
  }

  lemma {:induction false} RequestKeepsNeed(w: Window, id: nat, now: nat)
    requires WellShaped(w) && id in w.slots
    ensures NeededResend(w.slots[id]) ==> NeededResend(Request(w, id, now).0)
  {
  }

  lemma {:induction false} ReleaseHeadNext(w: Window)
    requires NextReady(w)
    ensures Release(w).1 != [] && Release(w).1[0] == w.slots[w.nextId.value].complete.value
  {
  }

  lemma {:induction false} ReleaseHeadKey(w: Window, id: nat)
    requires !NextReady(w) && CompleteKeys(w) == {id}
    ensures Release(w).1 != [] && Release(w).1[0] == w.slots[id].complete.value
  {
    LeastIs(id, {id});
  }

  /** The last fragment of a frame the decoder awaits: it goes out first of all. */
  lemma {:induction false} LackingLastAwaited(w: Window, h: Header, payload: Bytes, now: nat)
    requires Lacking(w, h) && Full(With(w, h, payload)) && Awaited(w, h.frameId, With(w, h, payload).isKey)
    requires Accepted(w, h, now)
    ensures var w1 := Stored(w, h, payload, now).0;
            Release(w1).1 != [] && Release(w1).1[0] == FrameOf(With(w, h, payload), h.frameId)
  {
    var id: nat := h.frameId;
    LackingStored(w, h, payload, now);
    var w1 := Stored(w, h, payload, now).0;
    if !w.needKey && w.nextId == Some(id) {
      ReleaseHeadNext(w1);
    } else {
      assert CompleteKeys(w1) == {id} by {
        assert CompleteKeys(w1) <= CompleteKeys(w) + {id};
      }
      OthersNotReady(w, w1, id);
      ReleaseHeadKey(w1, id);
    }
  }

  /** The last fragment of any other frame: it is kept, complete. */
  lemma {:induction false} LackingLastKept(w: Window, h: Header, payload: Bytes, now: nat)
    requires Lacking(w, h) && Full(With(w, h, payload)) && !Awaited(w, h.frameId, With(w, h, payload).isKey)
    requires Accepted(w, h, now)
    ensures var (w', out) := Settle(Stored(w, h, payload, now).0, now);
            && out.frames == [] && h.frameId in w'.slots
            && w'.slots[h.frameId].complete == Some(FrameOf(With(w, h, payload), h.frameId))
  {
    var id: nat := h.frameId;
    LackingStored(w, h, payload, now);
    var w1 := Stored(w, h, payload, now).0;
    assert |w1.slots.Keys| == |w.slots.Keys| by { assert w1.slots.Keys == w.slots.Keys; }
    StillReleased(w, w1, id);
    SettleIdle(w1, now);
    assert id in w1.slots.Keys;
  }

  /** The last fragment: the frame arrives, and goes out at once if the decoder can take it. */
  lemma {:induction false} LackingLast(w: Window, h: Header, payload: Bytes, now: nat)
    requires Lacking(w, h) && Full(With(w, h, payload))
    ensures var (w', out, _) := Insert(w, h, payload, now); var r := With(w, h, payload);
            && out.arrived == [ArrivalOf(r, h.frameId)]
            && (if Awaited(w, h.frameId, r.isKey)
                then out.frames != [] && out.frames[0] == FrameOf(r, h.frameId)
                else out.frames == [] && h.frameId in w'.slots
                     && w'.slots[h.frameId].complete == Some(FrameOf(r, h.frameId)))
  {
    LackingStored(w, h, payload, now);
    var w1 := Stored(w, h, payload, now).0;
    SettleStages(w1, now);
    if Awaited(w, h.frameId, With(w, h, payload).isKey) {
      LackingLastAwaited(w, h, payload, now);
    } else {
      LackingLastKept(w, h, payload, now);
    }
  }

  lemma {:induction false} OthersNotReady(w: Window, w': Window, id: nat)
    requires Released(w) && id in w.slots && w'.nextId == w.nextId && w'.needKey == w.needKey
    requires id in w'.slots && w'.slots == w.slots[id := w'.slots[id]] && (w.needKey || w.nextId != Some(id))
    ensures !NextReady(w')
  {
  }

  // ---- the whole answer ----

  function PieceHeader(sent: SentLog, id: nat, i: nat): Header
    requires GoodLog(sent) && id in sent && i < Total(sent, id)
  {
    HeaderFor(sent[id].frame, i, Total(sent, id))
  }

  /** A slot is full exactly when it lacks nothing. */
  lemma {:induction false} WithFull(w: Window, h: Header, payload: Bytes)
    requires Lacking(w, h)
    ensures var r := With(w, h, payload);
            && r.fragTotal == Some(h.fragTotal) && |r.fragments| == h.fragTotal
            && (Full(r) <==> forall i: nat :: !Lacks(r, h.fragTotal, i))
  {
    var r := With(w, h, payload);
    LackingAccepted(w, h, payload, 0);
    StoreOpen(SlotFor(NoteAsked(w, 0), h.frameId, h.fragTotal), h, payload);
    ArrivedAll(r.fragments);
    assert Full(r) <==> Arrived(r.fragments) == |r.fragments|;
    forall i: nat | i < |r.fragments|
      ensures Lacks(r, h.fragTotal, i) <==> r.fragments[i].None?
    {
    }
    if !Full(r) {
      var i :| 0 <= i < |r.fragments| && r.fragments[i].None?;
      assert Lacks(r, h.fragTotal, i);
    }
  }

  /** Storing the first of what a slot lacks leaves it lacking the rest. */
  lemma {:induction false} WithLacks(w: Window, h: Header, payload: Bytes, order: seq<nat>)
    requires Lacking(w, h) && order != [] && h.fragId == order[0]
    requires LacksExactly(w.slots[h.frameId], h.fragTotal, order)
    ensures var r := With(w, h, payload);
            && LacksExactly(r, h.fragTotal, order[1..])
            && (Full(r) <==> |order| == 1)
            && (NeededResend(w.slots[h.frameId]) ==> NeededResend(r))
  {
    var s := w.slots[h.frameId];
    var r := With(w, h, payload);
    WithFull(w, h, payload);
    forall i: nat ensures i in order[1..] <==> Lacks(r, h.fragTotal, i) {
      assert i in order <==> i == order[0] || i in order[1..];
      assert Lacks(r, h.fragTotal, i) <==> Lacks(s, h.fragTotal, i) && i != h.fragId;
    }
    if |order| > 1 { assert order[1] in order[1..]; }
  }

  /** What a slot lacks, the piece with that index supplies. */
  lemma {:induction false} PieceSupplies(sent: SentLog, w: Window, id: nat, i: nat)
    requires GoodLog(sent) && Recovering(sent, w, id) && Lacks(w.slots[id], Total(sent, id), i)
    ensures var h := PieceHeader(sent, id, i);
            Lacking(w, h) && Genuine(sent, h, Parts(sent[id])[i]) && h.frameId == id && h.fragId == i
            && h.fragTotal == Total(sent, id)
  {
    RecoveringShape(sent, w, id);
    DatagramParses(sent[id].frame, sent[id].chunk, i);
  }

  /** The window after a sequence of calls, and what each put out. */
  ghost function Play(w: Window, es: seq<Event>): (Window, seq<Output>)
    requires Inv(w) && WellShaped(w)
    decreases |es|
  {
    if es == [] then (w, [])
    else
      StepInv(w, es[0]);
      BaseIsShaped(Step(w, es[0]).0);
      var (w', outs) := Play(Step(w, es[0]).0, es[1..]);
      (w', [Step(w, es[0]).1] + outs)
  }

  /** The datagrams of `indices`, arriving one after another at the given times. */
  function Arrivals(sent: SentLog, id: nat, indices: seq<nat>, times: seq<nat>): seq<Event>
    requires GoodLog(sent) && id in sent && |times| == |indices|
    requires forall k :: 0 <= k < |indices| ==> indices[k] < Total(sent, id)
  {
    seq(|indices|, k requires 0 <= k < |indices| =>
      Fragment(PieceHeader(sent, id, indices[k]), Parts(sent[id])[indices[k]], times[k]))
  }

  /** Only the last call says anything about frames: it reports exactly the sent frame, and hands it out or keeps it. */
  predicate Completes(f: EncodedFrame, atOnce: bool, resent: bool, outs: seq<Output>, w': Window) {
    && outs != []
    && (forall k :: 0 <= k < |outs| - 1 ==> outs[k].frames == [] && outs[k].arrived == [])
    && var last := outs[|outs| - 1];
       && |last.arrived| == 1
       && last.arrived[0] == ArrivedFrame(f.id, WirePts(f.ptsNs), |f.data|, last.arrived[0].recovered, f.isKey)
       && (resent ==> last.arrived[0].recovered)
       && (if atOnce then last.frames != [] && last.frames[0] == Original(f)
           else last.frames == [] && f.id in w'.slots && w'.slots[f.id].complete == Some(Original(f)))
  }

  /** A slot filled with genuine fragments assembles to the original frame. */
  lemma {:induction false} WithOriginal(sent: SentLog, w: Window, h: Header, payload: Bytes)
    requires GoodLog(sent) && Faithful(sent, w) && Lacking(w, h) && Genuine(sent, h, payload)
        && Full(With(w, h, payload))
    ensures FrameOf(With(w, h, payload), h.frameId) == Original(sent[h.frameId].frame)
  {
    LackingAccepted(w, h, payload, 0);
    NoteAskedInv(w, 0);
    var w1 := NoteAsked(w, 0);
    SubsetFaithful(sent, w, w1);
    SlotForFaithful(sent, w1, h);
    StoreFaithful(sent, SlotFor(w1, h.frameId, h.fragTotal), h, payload);
  }

  lemma {:induction false} LastPiece(sent: SentLog, w: Window, id: nat, i: nat, now: nat)
    requires GoodLog(sent) && Recovering(sent, w, id) && LacksExactly(w.slots[id], Total(sent, id), [i])
    ensures var f := sent[id].frame;
            && i < Total(sent, id)
            && var (w', out) := Step(w, Fragment(PieceHeader(sent, id, i), Parts(sent[id])[i], now));
               Completes(f, Awaited(w, id, f.isKey), NeededResend(w.slots[id]), [out], w')
  {
    assert i in [i];
    PieceSupplies(sent, w, id, i);
    var h, payload := PieceHeader(sent, id, i), Parts(sent[id])[i];
    WithLacks(w, h, payload, [i]);
    LackingLast(w, h, payload, now);
    WithOriginal(sent, w, h, payload);
  }

  lemma {:induction false} NextPiece(sent: SentLog, w: Window, id: nat, order: seq<nat>, now: nat)
    requires GoodLog(sent) && Recovering(sent, w, id) && |order| > 1
    requires LacksExactly(w.slots[id], Total(sent, id), order)
    ensures order[0] < Total(sent, id)
    ensures var i := order[0];
            var (w', out) := Step(w, Fragment(PieceHeader(sent, id, i), Parts(sent[id])[i], now));
            && out.frames == [] && out.arrived == []
            && Recovering(sent, w', id)
            && LacksExactly(w'.slots[id], Total(sent, id), order[1..])
            && w'.nextId == w.nextId && w'.needKey == w.needKey
            && (NeededResend(w.slots[id]) ==> NeededResend(w'.slots[id]))
  {
    var i := order[0];
    assert i in order;
    PieceSupplies(sent, w, id, i);
    var h, payload := PieceHeader(sent, id, i), Parts(sent[id])[i];
    WithLacks(w, h, payload, order);
    LackingPart(w, h, payload, now);
    InsertFaithful(sent, w, h, payload, now);
    SameLacks(With(w, h, payload), Insert(w, h, payload, now).0.slots[id], Total(sent, id), order[1..]);
  }

  lemma {:induction false} SameLacks(s: Slot, r: Slot, total: nat, order: seq<nat>)
    requires SameFrame(s, r) && LacksExactly(s, total, order)
    ensures LacksExactly(r, total, order)
  {
    assert forall i: nat :: Lacks(r, total, i) <==> Lacks(s, total, i);
  }

  lemma {:induction false} InRangeAll(s: Slot, total: nat, order: seq<nat>)
    requires LacksExactly(s, total, order)
    ensures forall k :: 0 <= k < |order| ==> order[k] < total
  {
    assert forall k :: 0 <= k < |order| ==> order[k] in order;
  }

  /** The pieces `order` arriving in turn complete frame `id`. */
  ghost predicate ArrivalsComplete(sent: SentLog, w: Window, id: nat, order: seq<nat>, times: seq<nat>)
    requires GoodLog(sent) && Recovering(sent, w, id) && |times| == |order|
    requires forall k :: 0 <= k < |order| ==> order[k] < Total(sent, id)
  {
    var f := sent[id].frame;
    var (w', outs) := Play(w, Arrivals(sent, id, order, times));
    Completes(f, Awaited(w, id, f.isKey), NeededResend(w.slots[id]), outs, w')
  }

  lemma {:induction false} OnePiece(sent: SentLog, w: Window, id: nat, order: seq<nat>, times: seq<nat>)
    requires GoodLog(sent) && Recovering(sent, w, id) && LacksExactly(w.slots[id], Total(sent, id), order)
    requires |order| == |times| == 1
    ensures forall k :: 0 <= k < |order| ==> order[k] < Total(sent, id)
    ensures ArrivalsComplete(sent, w, id, order, times)
  {
    InRangeAll(w.slots[id], Total(sent, id), order);
    assert order == [order[0]];
    LastPiece(sent, w, id, order[0], times[0]);
    PlayOne(w, Fragment(PieceHeader(sent, id, order[0]), Parts(sent[id])[order[0]], times[0]),
            Arrivals(sent, id, order, times));
  }

  lemma {:induction false} PlayOne(w: Window, e: Event, es: seq<Event>)
    requires Inv(w) && WellShaped(w) && |es| == 1 && es[0] == e
    ensures Play(w, es) == (Step(w, e).0, [Step(w, e).1])
  {
    PlayFirst(w, es);
    PlayNone(Step(w, e).0, es[1..]);
    assert [Step(w, e).1] + [] == [Step(w, e).1];
  }

  lemma {:induction false} ArrivalsTail(sent: SentLog, id: nat, order: seq<nat>, times: seq<nat>)
    requires GoodLog(sent) && id in sent && order != [] && |times| == |order|
    requires forall k :: 0 <= k < |order| ==> order[k] < Total(sent, id)
    ensures Arrivals(sent, id, order, times)[1..] == Arrivals(sent, id, order[1..], times[1..])
  {
  }

  /** One call that reports nothing, and then the pieces `order[1..]`. */
  lemma {:induction false} RestCompletes(sent: SentLog, w: Window, id: nat, order: seq<nat>, times: seq<nat>,
                                         w1: Window)
    requires GoodLog(sent) && Recovering(sent, w, id) && Recovering(sent, w1, id)
    requires |order| > 1 && |times| == |order| && forall k :: 0 <= k < |order| ==> order[k] < Total(sent, id)
    requires var (s, out) := Step(w, Arrivals(sent, id, order, times)[0]);
             w1 == s && out.frames == [] && out.arrived == []
    requires w1.nextId == w.nextId && w1.needKey == w.needKey
    requires NeededResend(w.slots[id]) ==> NeededResend(w1.slots[id])
    requires ArrivalsComplete(sent, w1, id, order[1..], times[1..])
    ensures ArrivalsComplete(sent, w, id, order, times)
  {
    var f := sent[id].frame;
    var es := Arrivals(sent, id, order, times);
    var rest := Arrivals(sent, id, order[1..], times[1..]);
    PlayFirst(w, es);
    ArrivalsTail(sent, id, order, times);
    CompletesAfter(f, Awaited(w, id, f.isKey), NeededResend(w1.slots[id]), NeededResend(w.slots[id]), Step(w, es[0]).1,
                   Play(w1, rest).1, Play(w1, rest).0);
  }

  /** The first of several pieces leaves a window that lacks the others. */
  lemma {:induction false} FirstPiece(sent: SentLog, w: Window, id: nat, order: seq<nat>, times: seq<nat>)
    returns (w1: Window)
    requires GoodLog(sent) && Recovering(sent, w, id) && LacksExactly(w.slots[id], Total(sent, id), order)
    requires |order| > 1 && |times| == |order|
    ensures Recovering(sent, w1, id) && LacksExactly(w1.slots[id], Total(sent, id), order[1..])
    ensures forall k :: 0 <= k < |order| ==> order[k] < Total(sent, id)
    ensures ArrivalsComplete(sent, w1, id, order[1..], times[1..]) ==> ArrivalsComplete(sent, w, id, order, times)
  {
    InRangeAll(w.slots[id], Total(sent, id), order);
    NextPiece(sent, w, id, order, times[0]);
    w1 := Step(w, Arrivals(sent, id, order, times)[0]).0;
    if ArrivalsComplete(sent, w1, id, order[1..], times[1..]) { RestCompletes(sent, w, id, order, times, w1); }
  }

  /** All the pieces a held frame lacks complete it, in whatever order they arrive. */
  lemma {:induction false} PiecesComplete(sent: SentLog, w: Window, id: nat, order: seq<nat>, times: seq<nat>)
    requires GoodLog(sent) && Recovering(sent, w, id) && LacksExactly(w.slots[id], Total(sent, id), order)
    requires order != [] && |times| == |order|
    ensures forall k :: 0 <= k < |order| ==> order[k] < Total(sent, id)
    ensures ArrivalsComplete(sent, w, id, order, times)
    decreases |times|
  {
    if |order| == 1 {
      OnePiece(sent, w, id, order, times);
    } else {
      var w1 := FirstPiece(sent, w, id, order, times);
      PiecesComplete(sent, w1, id, order[1..], times[1..]);
    }
  }

  lemma {:induction false} PlayNone(w: Window, es: seq<Event>)
    requires Inv(w) && WellShaped(w) && |es| == 0
    ensures Play(w, es) == (w, [])
  {
  }

  lemma {:induction false} PlayFirst(w: Window, es: seq<Event>)
    requires Inv(w) && WellShaped(w) && es != []
    ensures var w1 := Step(w, es[0]).0;
            && Inv(w1) && WellShaped(w1)
            && Play(w, es) == (Play(w1, es[1..]).0, [Step(w, es[0]).1] + Play(w1, es[1..]).1)
  {
    StepInv(w, es[0]);
    BaseIsShaped(Step(w, es[0]).0);
  }

  lemma {:induction false} CompletesAfter(f: EncodedFrame, atOnce: bool, later: bool, resent: bool,
                                          out: Output, outs: seq<Output>, w': Window)
    requires out.frames == [] && out.arrived == [] && Completes(f, atOnce, later, outs, w') && (resent ==> later)
    ensures Completes(f, atOnce, resent, [out] + outs, w')
  {
    var all := [out] + outs;
    assert all[|all| - 1] == outs[|outs| - 1];
    forall k | 0 <= k < |all| - 1 ensures all[k].frames == [] && all[k].arrived == [] {
      if k > 0 { assert all[k] == outs[k - 1]; }
    }
  }

  // ---- request and answer ----

  /**
   * The cache holds a frame sent within the second, none of whose asked-for datagrams went out again within
   * `minGap`.
   */
  predicate Held(sent: SentLog, c: Cache.Cache, id: nat, ask: seq<nat>, now: nat, minGap: nat)
    requires GoodLog(sent) && id in sent
  {
    var at := Cache.Newest(c.frames, id);
    at.Some?
    && var f := c.frames[at.value];
       && f.datagrams == DatagramsOf(sent[id].frame, sent[id].chunk) && |f.resentAt| == |f.datagrams|
       && now <= f.sentAt + 1_000_000_000
       && (forall i :: 0 <= i < |f.resentAt| && (ask == [] || i in ask) ==> Cache.Resendable(f, i, now, minGap))
  }

  /** What the window asks for about a frame it knows to be incomplete. */
  function Ask(w: Window, id: nat): seq<nat>
    requires WellShaped(w) && id in w.slots
  {
    Missing(w.slots[id], true)
  }

  /** Asking for a sized frame's holes names what it wants; a frame of unknown size is asked for whole. */
  lemma {:induction false} AskIsWants(sent: SentLog, w: Window, id: nat)
    requires GoodLog(sent) && Recovering(sent, w, id)
    ensures var wants := Wants(w.slots[id], Total(sent, id));
            && wants != []
            && (if Ask(w, id) == [] then wants == seq(Total(sent, id), i => i) else wants == Ask(w, id))
  {
    var s := w.slots[id];
    RecoveringShape(sent, w, id);
    assert SlotOk(id, s);
    if s.fragTotal.Some? {
      HolesCount(s.fragments, Total(sent, id));
      assert s.fragments[..Total(sent, id)] == s.fragments;
    }
  }

  /** The answer names exactly the fragments the slot wants, in order. */
  lemma {:induction false} AnswerIsWants(sent: SentLog, w: Window, c: Cache.Cache, id: nat, now: nat, minGap: nat)
    requires GoodLog(sent) && Recovering(sent, w, id) && Held(sent, c, id, Ask(w, id), now, minGap)
    ensures var wants := Wants(w.slots[id], Total(sent, id));
            && wants != []
            && Cache.Take(c, id, Ask(w, id), now, minGap).1 == Cache.Answer.Answer(Cache.Newest(c.frames, id).value, wants)
  {
    AskIsWants(sent, w, id);
    var wants := Wants(w.slots[id], Total(sent, id));
    var f := c.frames[Cache.Newest(c.frames, id).value];
    assert Cache.Wanted(f, Ask(w, id)) == wants;
    RecoveringShape(sent, w, id);
    WantsLack(w.slots[id], Total(sent, id));
    InRangeAll(w.slots[id], Total(sent, id), wants);
    FreeOnes(f, Ask(w, id), wants, now, minGap);
    Cache.ResendAll(f, wants, now, minGap);
  }

  lemma {:induction false} FreeOnes(f: Cache.SentFrame, ask: seq<nat>, wants: seq<nat>, now: nat, minGap: nat)
    requires |f.resentAt| == |f.datagrams| && forall k :: 0 <= k < |wants| ==> wants[k] < |f.datagrams|
    requires ask == [] || ask == wants
    requires forall i :: 0 <= i < |f.resentAt| && (ask == [] || i in ask) ==> Cache.Resendable(f, i, now, minGap)
    ensures forall k :: 0 <= k < |wants| ==> !Cache.Suppressed(f, wants[k], now, minGap)
  {
    forall k | 0 <= k < |wants| ensures !Cache.Suppressed(f, wants[k], now, minGap) {
      assert wants[k] in wants;
      assert Cache.Resendable(f, wants[k], now, minGap);
    }
  }

  /** The same entries, each once, in any order. */
  ghost predicate Reordered(order: seq<nat>, answer: seq<nat>) {
    |order| == |answer| && Distinct(order) && forall i: nat :: i in order <==> i in answer
  }

  /**
   * A request's answer completes the frame: for a held frame older than the newest seen that the
   * cache still holds, with nothing suppressed, the datagrams answered for its missing fragments (or
   * for the whole frame when its size is unknown) arrive, in any order and at whatever times, and the
   * last of them reports exactly the frame sent - as recovered, if the window had asked - and hands it
   * out at once when the decoder awaits it.
   */
  lemma {:induction false} AnswerCompletesFrame(sent: SentLog, w: Window, c: Cache.Cache, id: nat,
                                                now: nat, minGap: nat, order: seq<nat>, times: seq<nat>)
    requires GoodLog(sent) && Recovering(sent, w, id) && Held(sent, c, id, Ask(w, id), now, minGap)
    requires var a := Cache.Take(c, id, Ask(w, id), now, minGap).1; a.Answer? ==> Reordered(order, a.indices)
    requires |times| == |order|
    ensures var f := sent[id].frame;
            && Cache.Take(c, id, Ask(w, id), now, minGap).1.Answer?
            && (forall k :: 0 <= k < |order| ==> order[k] < Total(sent, id))
            && var (w', outs) := Play(w, Arrivals(sent, id, order, times));
               Completes(f, Awaited(w, id, f.isKey), NeededResend(w.slots[id]), outs, w')
  {
    AnswerIsWants(sent, w, c, id, now, minGap);
    RecoveringShape(sent, w, id);
    WantsLack(w.slots[id], Total(sent, id));
    PiecesComplete(sent, w, id, order, times);
  }

  /** The cache holds frame `id`, sent within the second, and may return each of the asked-for datagrams. */
  predicate Recallable(c: Cache.Cache, id: nat, ask: seq<nat>, now: nat, minGap: nat) {
    var at := Cache.Newest(c.frames, id);
    at.Some?
    && var f := c.frames[at.value];
       && now <= f.sentAt + 1_000_000_000
       && (forall i :: 0 <= i < |f.resentAt| && (ask == [] || i in ask) ==> Cache.Resendable(f, i, now, minGap))
  }

  /**
   * So it is in every state the two ends can reach, whatever the channel did: a frame the viewer knows to
   * be incomplete and the host's cache still holds is completed by the answer, exactly.
   */
  lemma {:induction false} AnswerCompletesInReach(c: Config, es: seq<Happening>, id: nat,
                                                  now: nat, minGap: nat, order: seq<nat>, times: seq<nat>)
    requires Reach(c, es).Some? && |times| == |order|
    requires var w := Reach(c, es).value.window;
             id in w.slots && w.slots[id].complete.None? && TailKnown(w, id)
    requires var s := Reach(c, es).value; var ask := Ask(s.window, id);
             && Recallable(s.cache, id, ask, now, minGap)
             && var a := Cache.Take(s.cache, id, ask, now, minGap).1; a.Answer? ==> Reordered(order, a.indices)
    ensures var s := Reach(c, es).value;
            && id in s.sent && Cache.Take(s.cache, id, Ask(s.window, id), now, minGap).1.Answer?
            && (forall k :: 0 <= k < |order| ==> order[k] < Total(s.sent, id))
            && var f := s.sent[id].frame; var (w', outs) := Play(s.window, Arrivals(s.sent, id, order, times));
               Completes(f, Awaited(s.window, id, f.isKey), NeededResend(s.window.slots[id]), outs, w')
  {
    var s := Reach(c, es).value;
    var at := Cache.Newest(s.cache.frames, id).value;
    assert EntryIsSent(s.sent, s.cache.frames[at]);
    AnswerCompletesFrame(s.sent, s.window, s.cache, id, now, minGap, order, times);
  }

  /** Between calls, every frame worth asking for has been asked for, so its completion counts as recovered. */
  lemma {:induction false} ChasedWasAsked(w: Window, id: nat)
    requires Inv(w) && WellShaped(w) && id in w.slots && Chased(w, id) && w.config.maxNackRounds >= 1
    ensures NeededResend(w.slots[id])
  {
    var s := w.slots[id];
    assert OnTheClock(w, id) && SlotOk(id, s);
    if s.fragTotal.Some? {
      var missing := Missing(s, TailKnown(w, id));
      assert missing[0] in missing;
    }
  }
}
