/**
 * Exactly the unsafe calls can stall the window: after a safe one no run of safe calls does, and after
 * any other one the fragments the held frames lack, and at most one later frame, do.
 */
module SafeCalls {
  import opened Prelude
  import opened Wire
  import opened Fragments
  import opened WindowModel
  import opened WindowSteps
  import opened WindowInvariant
  import opened WindowRuns
  import opened WindowProgress
  import opened Recovery
  import opened Agreement
  import opened WindowStalls

  /** Every one of these calls, made one after another from `w`, is safe when it is made. */
  ghost predicate SafePlay(w: Window, es: seq<Event>)
    requires Inv(w) && WellShaped(w)
    decreases |es|
  {
    es == [] || (Safe(w, es[0])
                 && (StepInv(w, es[0]); BaseIsShaped(Step(w, es[0]).0); SafePlay(Step(w, es[0]).0, es[1..])))
  }

  /** Some safe calls from here on stall the window. */
  ghost predicate CanStall(w: Window)
    requires Inv(w) && WellShaped(w)
  {
    exists more :: SafePlay(w, more) && (PlayInv(w, more); Stalled(Play(w, more).0))
  }

  lemma {:induction false} PlayInv(w: Window, es: seq<Event>)
    requires Inv(w) && WellShaped(w)
    ensures Inv(Play(w, es).0) && WellShaped(Play(w, es).0)
    decreases |es|
  {
    if es != [] {
      PlayFirst(w, es);
      PlayInv(Step(w, es[0]).0, es[1..]);
    }
  }

  // ---- after a safe call ----

  lemma {:induction false} PlayTracked(w: Window, es: seq<Event>)
    requires Inv(w) && WellShaped(w) && WellTracked(w) && SafePlay(w, es)
    ensures WellTracked(Play(w, es).0)
    decreases |es|
  {
    if es != [] {
      StepTracked(w, es[0]);
      PlayFirst(w, es);
      PlayTracked(Step(w, es[0]).0, es[1..]);
    }
  }

  lemma {:induction false} TrackedCannotStall(w: Window)
    requires Inv(w) && WellShaped(w) && WellTracked(w)
    ensures !CanStall(w)
  {
    forall more | SafePlay(w, more)
      ensures Inv(Play(w, more).0) && WellShaped(Play(w, more).0) && !Stalled(Play(w, more).0)
    {
      PlayInv(w, more);
      PlayTracked(w, more);
      TrackedIsLive(Play(w, more).0);
    }
  }

  // ---- one call after another ----

  lemma {:induction false} TailOf(a: seq<Event>, b: seq<Event>)
    requires a != []
    ensures a + b != [] && (a + b)[0] == a[0] && (a + b)[1..] == a[1..] + b
  {
  }

  lemma {:induction false} PlayOn(w: Window, a: seq<Event>, b: seq<Event>, all: seq<Event>)
    requires Inv(w) && WellShaped(w) && all == a + b
    ensures Inv(Play(w, a).0) && WellShaped(Play(w, a).0)
    ensures Play(w, all).0 == Play(Play(w, a).0, b).0
    decreases |a|
  {
    PlayInv(w, a);
    if a == [] {
      PlayNone(w, a);
      assert all == b;
    } else {
      TailOf(a, b);
      PlayFirst(w, a);
      PlayFirst(w, all);
      var w1 := Step(w, a[0]).0;
      var rest := a[1..];
      PlayOn(w1, rest, b, all[1..]);
    }
  }

  lemma {:induction false} SafeFirst(w: Window, es: seq<Event>)
    requires Inv(w) && WellShaped(w) && es != []
    ensures Inv(Step(w, es[0]).0) && WellShaped(Step(w, es[0]).0)
    ensures SafePlay(w, es) <==> Safe(w, es[0]) && SafePlay(Step(w, es[0]).0, es[1..])
  {
    StepInv(w, es[0]);
    BaseIsShaped(Step(w, es[0]).0);
  }

  lemma {:induction false} SafeOn(w: Window, a: seq<Event>, b: seq<Event>, all: seq<Event>, mid: Window)
    requires Inv(w) && WellShaped(w) && SafePlay(w, a) && all == a + b
    requires mid == Play(w, a).0 && Inv(mid) && WellShaped(mid) && SafePlay(mid, b)
    ensures SafePlay(w, all)
    decreases |a|
  {
    if a == [] {
      PlayNone(w, a);
      assert all == b;
    } else {
      TailOf(a, b);
      SafeFirst(w, a);
      SafeFirst(w, all);
      PlayFirst(w, a);
      var w1 := Step(w, a[0]).0;
      var rest := a[1..];
      SafeOn(w1, rest, b, all[1..], mid);
    }
  }

  lemma {:induction false} PlaySingle(w: Window, e: Event)
    requires Inv(w) && WellShaped(w)
    ensures Play(w, [e]).0 == Step(w, e).0 && (Safe(w, e) ==> SafePlay(w, [e]))
    ensures Inv(Step(w, e).0) && WellShaped(Step(w, e).0)
  {
    PlayFirst(w, [e]);
    PlayNone(Step(w, e).0, [e][1..]);
  }

  // ---- windows on the way to a stall ----

  /** Frame `hole` is neither held nor behind the decoder. */
  predicate Hole(w: Window, hole: nat) {
    w.highest.Some? && hole <= w.highest.value && hole !in w.slots && w.config.maxHeld >= 1
  }

  /** A keyframe is awaited, `k` is held incomplete and the last keyframe held, and a frame after it is a hole. */
  predicate Ahead(w: Window, k: nat, hole: nat) {
    && w.needKey && Hole(w, hole) && k < hole
    && k in w.slots && w.slots[k].isKey && w.slots[k].complete.None?
    && forall j :: j in w.slots && j > k ==> !w.slots[j].isKey
  }

  /** The chain is intact and must come to a hole, with no keyframe held to get past it. */
  predicate Holed(w: Window, hole: nat) {
    !w.needKey && w.nextId.Some? && w.nextId.value <= hole && Hole(w, hole) && NoKeyHeld(w)
  }

  function Incomplete(w: Window): set<nat> {
    set j | j in w.slots && w.slots[j].complete.None?
  }

  predicate SameEnds(w: Window, w': Window) {
    w'.highest == w.highest && w'.config == w.config
  }

  lemma {:induction false} ReleaseHoled(w: Window, hole: nat)
    requires Holed(w, hole)
    ensures Holed(Release(w).0, hole) && SameEnds(w, Release(w).0)
    decreases w.slots.Keys
  {
    assert CompleteKeys(w) == {};
    if NextReady(w) {
      TakeNextShrinks(w);
      ReleaseHoled(TakeNext(w), hole);
    }
  }

  /** The last keyframe held is complete and goes out, with everything before it. */
  lemma {:induction false} ReleaseAhead(w: Window, k: nat, hole: nat)
    requires w.needKey && CompleteKeys(w) == {k} && Hole(w, hole) && k < hole
    requires forall j :: j in w.slots && j > k ==> !w.slots[j].isKey
    ensures Holed(Release(w).0, hole) && SameEnds(w, Release(w).0) && k !in Release(w).0.slots
  {
    LeastIs(k, {k});
    assert k in CompleteKeys(w);
    ReleaseHoled(TakeKey(w, k), hole);
    ReleaseKeeps(TakeKey(w, k));
    assert k !in TakeKey(w, k).slots.Keys;
  }

  /** Within its bound, the window only asks after handing out. */
  lemma {:induction false} SettleHoled(w: Window, now: nat, hole: nat)
    requires Base(w) && WellShaped(w) && Holed(Release(w).0, hole) && |Release(w).0.slots| <= w.config.maxHeld
    requires SameEnds(w, Release(w).0)
    ensures var w' := Settle(w, now).0;
            Inv(w') && WellShaped(w') && Holed(w', hole) && SameEnds(w, w') && SameFrames(Release(w).0, w')
  {
    var w1 := Release(w).0;
    ReleaseStage(w);
    RequestStage(w1, now);
    SettleStages(w, now);
    SettleInv(w, now);
    var w2 := RequestMissing(w1, now).0;
    BaseIsShaped(w2);
    assert w2.slots.Keys == w1.slots.Keys;
    assert |w2.slots.Keys| == |w1.slots.Keys|;
    SameFramesHoled(w1, w2, hole);
  }

  lemma {:induction false} SameFramesHoled(w: Window, w': Window, hole: nat)
    requires SameFrames(w, w') && Holed(w, hole)
    ensures Holed(w', hole) && SameEnds(w, w')
  {
    assert forall j :: j in w'.slots <==> j in w.slots.Keys;
  }

  lemma {:induction false} SameFramesAhead(w: Window, w': Window, k: nat, hole: nat)
    requires SameFrames(w, w') && Ahead(w, k, hole)
    ensures Ahead(w', k, hole) && SameEnds(w, w')
  {
    assert forall j :: j in w'.slots <==> j in w.slots.Keys;
  }

  // ---- the fragments a held frame lacks ----

  /** Fragment `i` of a frame of `total`. */
  function PieceOf(id: u64, i: nat, total: u16, isKey: bool): Header
    requires i < total
  {
    Header(id, i, total, FlagBits(isKey, i == 0, i == total - 1), 0)
  }

  lemma {:induction false} PieceIs(id: u64, i: nat, total: u16, isKey: bool)
    requires i < total
    ensures Validate(PieceOf(id, i, total, isKey)).Ok? && IsKeyframe(PieceOf(id, i, total, isKey)) == isKey
  {
  }

  /** The size of the frame, or 1 when nothing is known of it. */
  function TotalOf(s: Slot): u16 {
    if s.fragTotal.Some? then s.fragTotal.value else 1
  }

  /** Frame `id` is to be filled: the last keyframe held, or any other frame once the chain is intact. */
  predicate Filling(w: Window, id: nat, isKey: bool, hole: nat) {
    && Inv(w) && WellShaped(w) && id in w.slots && w.slots[id].complete.None?
    && (if isKey then Ahead(w, id, hole) else Holed(w, hole))
  }

  lemma {:induction false} PieceLacking(w: Window, id: u64, i: nat, isKey: bool, hole: nat)
    requires Filling(w, id, isKey, hole) && Lacks(w.slots[id], TotalOf(w.slots[id]), i)
    ensures Lacking(w, PieceOf(id, i, TotalOf(w.slots[id]), isKey))
  {
    assert SlotOk(id, w.slots[id]);
    PieceIs(id, i, TotalOf(w.slots[id]), isKey);
  }

  lemma {:induction false} PieceSafe(w: Window, id: u64, i: nat, total: u16, isKey: bool, hole: nat, now: nat)
    requires Filling(w, id, isKey, hole) && i < total
    ensures Safe(w, Fragment(PieceOf(id, i, total, isKey), [], now))
  {
    PieceIs(id, i, total, isKey);
  }

  /** One slot becomes `s`, still incomplete, and the others keep their frames. */
  predicate OneSlotIs(w: Window, w': Window, id: nat, s: Slot) {
    && w'.slots.Keys == w.slots.Keys && id in w'.slots && SameFrame(s, w'.slots[id]) && s.complete.None?
    && (forall j :: j in w'.slots && j != id ==> j in w.slots && SameFrame(w.slots[j], w'.slots[j]))
    && w'.nextId == w.nextId && w'.needKey == w.needKey && SameEnds(w, w')
  }

  lemma {:induction false} AheadStays(w: Window, w': Window, id: nat, s: Slot, hole: nat)
    requires OneSlotIs(w, w', id, s) && Ahead(w, id, hole) && s.isKey
    ensures Ahead(w', id, hole)
  {
    assert hole !in w'.slots.Keys;
  }

  lemma {:induction false} HoledStays(w: Window, w': Window, id: nat, s: Slot, hole: nat)
    requires OneSlotIs(w, w', id, s) && Holed(w, hole) && !s.isKey
    ensures Holed(w', hole)
  {
    assert hole !in w'.slots.Keys;
  }

  lemma {:induction false} IncompleteStays(w: Window, w': Window, id: nat, s: Slot)
    requires OneSlotIs(w, w', id, s) && id in w.slots && w.slots[id].complete.None?
    ensures Incomplete(w') == Incomplete(w)
  {
    assert forall j :: j in w'.slots <==> j in w.slots.Keys;
  }

  /** Every piece but the last leaves the frame lacking one less, and all else as it was. */
  lemma {:induction false} PartStays(w: Window, h: Header, isKey: bool, hole: nat, now: nat)
    requires Lacking(w, h) && Filling(w, h.frameId, isKey, hole) && IsKeyframe(h) == isKey && !Full(With(w, h, []))
    ensures var w' := Insert(w, h, [], now).0;
            && Filling(w', h.frameId, isKey, hole) && Incomplete(w') == Incomplete(w) && SameEnds(w, w')
            && SameFrame(With(w, h, []), w'.slots[h.frameId])
  {
    var id: nat := h.frameId;
    var s := With(w, h, []);
    LackingPart(w, h, [], now);
    LackingOthers(w, h, [], now);
    var w' := Insert(w, h, [], now).0;
    assert id in w'.slots.Keys;
    if isKey { AheadStays(w, w', id, s, hole); } else { HoledStays(w, w', id, s, hole); }
    IncompleteStays(w, w', id, s);
  }

  /** The last piece leaves the chain intact with a hole to come, and the frame no longer incomplete. */
  lemma {:induction false} LastFills(w: Window, h: Header, isKey: bool, hole: nat, now: nat)
    requires Lacking(w, h) && Filling(w, h.frameId, isKey, hole) && IsKeyframe(h) == isKey && Full(With(w, h, []))
    ensures var w' := Insert(w, h, [], now).0;
            && Inv(w') && WellShaped(w') && Holed(w', hole) && SameEnds(w, w')
            && Incomplete(w') <= Incomplete(w) - {h.frameId as nat}
  {
    LackingStored(w, h, [], now);
    var w1 := Stored(w, h, [], now).0;
    LastStored(w, w1, h, isKey, hole);
    ReleaseKeeps(w1);
    SubsetSize(Release(w1).0.slots.Keys, w.slots.Keys);
    SettleHoled(w1, now, hole);
    InsertIsSettle(w, h, [], now);
    IncompleteShrinks(w, w1, Release(w1).0, Insert(w, h, [], now).0, h.frameId);
  }

  lemma {:induction false} LastStored(w: Window, w1: Window, h: Header, isKey: bool, hole: nat)
    requires Lacking(w, h) && Filling(w, h.frameId, isKey, hole) && IsKeyframe(h) == isKey && Full(With(w, h, []))
    requires w1.slots == w.slots[h.frameId as nat := Finish(With(w, h, []), h.frameId)]
    requires w1.nextId == w.nextId && w1.needKey == w.needKey && SameEnds(w, w1)
    ensures Holed(Release(w1).0, hole) && SameEnds(w1, Release(w1).0)
  {
    var id: nat := h.frameId;
    if isKey {
      forall j | j in w1.slots ensures j in CompleteKeys(w1) <==> j == id {
        if j != id { assert j !in CompleteKeys(w); }
      }
      assert CompleteKeys(w1) == {id};
      ReleaseAhead(w1, id, hole);
    } else {
      ReleaseHoled(w1, hole);
    }
  }

  lemma {:induction false} IncompleteShrinks(w: Window, w1: Window, w2: Window, w3: Window, id: nat)
    requires id in w1.slots && w1.slots[id].complete.Some? && w1.slots.Keys == w.slots.Keys
    requires forall j :: j in w.slots && j != id ==> j in w1.slots && w1.slots[j] == w.slots[j]
    requires forall j :: j in w2.slots ==> j in w1.slots && w2.slots[j] == w1.slots[j]
    requires SameFrames(w2, w3)
    ensures Incomplete(w3) <= Incomplete(w) - {id}
  {
    assert forall j :: j in w3.slots ==> j in w2.slots.Keys;
    assert forall j :: j in w1.slots ==> j in w.slots.Keys;
  }

  /** The frame's fragments `order`, arriving one after another. */
  function Pieces(id: u64, total: u16, order: seq<nat>, isKey: bool, now: nat): seq<Event>
    requires forall i :: 0 <= i < |order| ==> order[i] < total
  {
    seq(|order|, i requires 0 <= i < |order| => Fragment(PieceOf(id, order[i], total, isKey), [], now))
  }

  lemma {:induction false} PiecesTail(id: u64, total: u16, order: seq<nat>, isKey: bool, now: nat)
    requires order != [] && forall i :: 0 <= i < |order| ==> order[i] < total
    ensures Pieces(id, total, order, isKey, now)[1..] == Pieces(id, total, order[1..], isKey, now)
  {
  }

  lemma {:induction false} FirstPieceIs(w: Window, id: u64, total: u16, order: seq<nat>, isKey: bool, hole: nat)
    requires Filling(w, id, isKey, hole) && total == TotalOf(w.slots[id])
    requires order != [] && LacksExactly(w.slots[id], total, order)
    ensures order[0] < total && var h := PieceOf(id, order[0], total, isKey);
            && Lacking(w, h) && IsKeyframe(h) == isKey
            && LacksExactly(With(w, h, []), total, order[1..]) && (Full(With(w, h, [])) <==> |order| == 1)
  {
    assert order[0] in order;
    PieceLacking(w, id, order[0], isKey, hole);
    PieceIs(id, order[0], total, isKey);
    WithLacks(w, PieceOf(id, order[0], total, isKey), [], order);
  }

  /** All the fragments a held frame lacks fill it, whatever their order, by safe calls. */
  lemma {:induction false} PiecesFill(w: Window, id: u64, total: u16, order: seq<nat>, isKey: bool, hole: nat, now: nat)
    requires Filling(w, id, isKey, hole) && total == TotalOf(w.slots[id])
    requires order != [] && LacksExactly(w.slots[id], total, order)
    ensures forall i :: 0 <= i < |order| ==> order[i] < total
    ensures var es := Pieces(id, total, order, isKey, now); var w' := Play(w, es).0;
            && SafePlay(w, es) && Inv(w') && WellShaped(w') && Holed(w', hole) && SameEnds(w, w')
            && Incomplete(w') <= Incomplete(w) - {id as nat}
    decreases |order|
  {
    InRangeAll(w.slots[id], total, order);
    var es := Pieces(id, total, order, isKey, now);
    var h := PieceOf(id, order[0], total, isKey);
    FirstPieceIs(w, id, total, order, isKey, hole);
    PieceSafe(w, id, order[0], total, isKey, hole, now);
    PlayFirst(w, es);
    SafeFirst(w, es);
    var w1 := Step(w, es[0]).0;
    var rest := order[1..];
    if |order| == 1 {
      LastFills(w, h, isKey, hole, now);
      PlayNone(w1, es[1..]);
    } else {
      PartStays(w, h, isKey, hole, now);
      SameLacks(With(w, h, []), w1.slots[id], total, rest);
      PiecesTail(id, total, order, isKey, now);
      PiecesFill(w1, id, total, rest, isKey, hole, now);
    }
  }

  lemma {:induction false} SlotLacks(id: nat, s: Slot) returns (order: seq<nat>)
    requires SlotOk(id, s) && s.complete.None?
    ensures order != [] && LacksExactly(s, TotalOf(s), order)
  {
    var total := TotalOf(s);
    order := Wants(s, total);
    WantsLack(s, total);
    if s.fragTotal.Some? {
      ArrivedAll(s.fragments);
      var i: nat :| i < |s.fragments| && s.fragments[i].None?;
      assert Lacks(s, total, i);
    } else {
      assert Lacks(s, total, 0);
    }
  }

  lemma {:induction false} FillSlot(w: Window, id: nat, isKey: bool, hole: nat, now: nat) returns (es: seq<Event>)
    requires Filling(w, id, isKey, hole) && w.highest.value < 0x1_0000_0000_0000_0000
    ensures var w' := Play(w, es).0;
            && SafePlay(w, es) && Inv(w') && WellShaped(w') && Holed(w', hole) && SameEnds(w, w')
            && Incomplete(w') <= Incomplete(w) - {id}
  {
    assert SlotOk(id, w.slots[id]) && InRange(w, id);
    var order := SlotLacks(id, w.slots[id]);
    var total := TotalOf(w.slots[id]);
    PiecesFill(w, id, total, order, isKey, hole, now);
    es := Pieces(id, total, order, isKey, now);
  }

  /** The fragments all held frames lack, frame by frame. */
  lemma {:induction false} FillAll(w: Window, hole: nat, now: nat) returns (es: seq<Event>)
    requires Inv(w) && WellShaped(w) && Holed(w, hole) && w.highest.value < 0x1_0000_0000_0000_0000
    ensures var w' := Play(w, es).0;
            && SafePlay(w, es) && Inv(w') && WellShaped(w') && Holed(w', hole) && SameEnds(w, w') && Incomplete(w') == {}
    decreases Incomplete(w)
  {
    if Incomplete(w) == {} {
      es := [];
      PlayNone(w, es);
    } else {
      var id :| id in Incomplete(w);
      var first := FillSlot(w, id, false, hole, now);
      var w1 := Play(w, first).0;
      assert id !in Incomplete(w1);
      var rest := FillAll(w1, hole, now);
      es := first + rest;
      PlayOn(w, first, rest, es);
      SafeOn(w, first, rest, es, w1);
    }
  }

  /** With everything held complete, the window is stalled, or is by one whole frame more. */
  lemma {:induction false} FullStalls(w: Window, hole: nat, now: nat) returns (es: seq<Event>)
    requires Inv(w) && WellShaped(w) && Holed(w, hole) && Incomplete(w) == {}
    requires w.highest.value + 1 < 0x1_0000_0000_0000_0000
    ensures SafePlay(w, es) && Inv(Play(w, es).0) && WellShaped(Play(w, es).0) && Stalled(Play(w, es).0)
  {
    assert forall j :: j in w.slots ==> j !in Incomplete(w);
    if w.slots == map[] {
      var d: u64 := w.highest.value + 1;
      var e := Fragment(Single(d, false), [], now);
      SingleIsValid(d, false);
      WholeAfter(w, w.nextId.value, d, [], now);
      es := [e];
      PlaySingle(w, e);
      assert d as nat in Step(w, e).0.slots.Keys;
      StalledWhen(Step(w, e).0);
    } else {
      es := [];
      PlayNone(w, es);
      StalledWhen(w);
    }
  }

  lemma {:induction false} HoledStalls(w: Window, hole: nat, now: nat) returns (es: seq<Event>)
    requires Inv(w) && WellShaped(w) && Holed(w, hole) && w.highest.value + 1 < 0x1_0000_0000_0000_0000
    ensures SafePlay(w, es) && Inv(Play(w, es).0) && WellShaped(Play(w, es).0) && Stalled(Play(w, es).0)
  {
    var first := FillAll(w, hole, now);
    var w1 := Play(w, first).0;
    var rest := FullStalls(w1, hole, now);
    es := first + rest;
    PlayOn(w, first, rest, es);
    SafeOn(w, first, rest, es, w1);
  }

  lemma {:induction false} AheadStalls(w: Window, k: nat, hole: nat, now: nat) returns (es: seq<Event>)
    requires Inv(w) && WellShaped(w) && Ahead(w, k, hole) && w.highest.value + 1 < 0x1_0000_0000_0000_0000
    ensures SafePlay(w, es) && Inv(Play(w, es).0) && WellShaped(Play(w, es).0) && Stalled(Play(w, es).0)
  {
    var first := FillSlot(w, k, true, hole, now);
    var w1 := Play(w, first).0;
    var rest := HoledStalls(w1, hole, now);
    es := first + rest;
    PlayOn(w, first, rest, es);
    SafeOn(w, first, rest, es, w1);
  }

  // ---- what an unsafe call leaves ----

  /** The newest keyframe held. */
  lemma {:induction false} NewestKey(w: Window) returns (k: nat)
    requires Inv(w) && KeyInFlight(w)
    ensures k in w.slots && w.slots[k].isKey && w.slots[k].complete.None? && InRange(w, k)
    ensures forall j :: j in w.slots && w.slots[j].isKey ==> j <= k
  {
    var keys := set j | j in w.slots && w.slots[j].isKey;
    var some :| some in w.slots && w.slots[some].isKey;
    assert some in keys;
    k := Greatest(keys);
    assert forall j :: j in keys <==> j in w.slots && w.slots[j].isKey;
    assert SlotOk(k, w.slots[k]) && k !in CompleteKeys(w);
  }

  lemma {:induction false} SkipKeepsKeys(w: Window, now: nat, k: nat)
    requires w.highest.Some? && k in w.slots && w.slots[k].isKey && w.slots[k].complete.None?
    requires forall j :: j in w.slots && w.slots[j].isKey ==> j <= k
    requires k < w.highest.value && w.config.maxHeld >= 1 && forall j :: j in w.slots ==> j <= w.highest.value
    ensures Ahead(RequireKeyframe(w, now), k, k + 1) && SameEnds(w, RequireKeyframe(w, now))
  {
    SkipHolds(w, now);
    assert k in WindowRuns.Kept(w);
    assert forall j :: j in WindowRuns.Kept(w) ==> j <= k;
  }

  /** An unsafe skip-ahead forgets the frame after the newest keyframe held. */
  lemma {:induction false} UnsafeSkipLeaves(w: Window, now: nat) returns (k: nat)
    requires Inv(w) && !SkipSafe(w)
    ensures Ahead(RequireKeyframe(w, now), k, k + 1) && SameEnds(w, RequireKeyframe(w, now))
  {
    k := NewestKey(w);
    SomeHeld(w);
    assert forall j :: j in w.slots ==> InRange(w, j);
    SkipKeepsKeys(w, now, k);
  }

  /** A new keyframe with a frame after it uncovered, where the window has no other keyframe. */
  predicate NewKeyBefore(w: Window, h: Header, now: nat, hole: nat)
    requires WellShaped(w)
  {
    && Inv(w) && Accepted(w, h, now) && IsKeyframe(h) && FindsRoom(w, h)
    && w.needKey && NoKeyHeld(w) && Hole(w, hole) && h.frameId < hole
  }

  lemma {:induction false} UnsafeKeyIs(w: Window, h: Header, now: nat) returns (hole: nat)
    requires Inv(w) && WellShaped(w) && WellTracked(w) && !KeySafe(w, h, now)
    ensures NewKeyBefore(w, h, now, hole)
  {
    hole := Uncovered(w, h.frameId as nat + 1);
  }

  /** When it is complete at once, it goes out at once. */
  lemma {:induction false} WholeKeyLeaves(w: Window, h: Header, p: Bytes, now: nat, hole: nat)
    requires WellShaped(w) && NewKeyBefore(w, h, now, hole) && Finishes(w, h)
    ensures var w' := Insert(w, h, p, now).0; Inv(w') && WellShaped(w') && Holed(w', hole) && SameEnds(w, w')
  {
    var id: nat := h.frameId;
    var w1 := Stored(w, h, p, now).0;
    OldStored(w, h, p, now);
    StoredBase(w, h, p, now);
    assert CompleteKeys(w1) == {id};
    ReleaseAhead(w1, id, hole);
    ReleaseKeeps(w1);
    assert Release(w1).0.slots.Keys <= w1.slots.Keys - {id} <= w.slots.Keys;
    SubsetSize(Release(w1).0.slots.Keys, w.slots.Keys);
    SettleHoled(w1, now, hole);
    InsertIsSettle(w, h, p, now);
  }

  lemma {:induction false} StartsAhead(w: Window, w1: Window, f: nat, hole: nat)
    requires Starts(w, w1, f) && Hole(w, hole) && f < hole
    ensures Ahead(w1, f, hole) && SameEnds(w, w1)
  {
    assert f in w1.slots.Keys && hole !in w1.slots.Keys;
    assert forall j :: j in w1.slots ==> j in w.slots.Keys + {f};
  }

  /** Giving up the oldest frame, when that is not the keyframe, changes nothing that matters. */
  lemma {:induction false} BrokenAhead(w: Window, m: nat, now: nat, k: nat, hole: nat)
    requires Ahead(w, k, hole) && m < k
    ensures Ahead(Broken(w, m, now), k, hole) && SameEnds(w, Broken(w, m, now))
  {
  }

  lemma {:induction false} EnforceAhead(w: Window, w2: Window, f: nat, hole: nat, now: nat)
    requires Base(w2) && Released(w2) && WellShaped(w2) && Requested(w2) && Starts(w, w2, f) && Ahead(w2, f, hole)
    requires |w2.slots| <= w2.config.maxHeld + 1 && (|w2.slots| <= w2.config.maxHeld || HoldsOlder(w, f))
    ensures var w' := EnforceCapacity(w2, now).0; Ahead(w', f, hole) && SameEnds(w2, w')
  {
    if |w2.slots| > w2.config.maxHeld {
      EnforceOne(w2, now);
      var m :| m in w.slots && m < f;
      assert m in w2.slots.Keys;
      BrokenAhead(w2, Least(w2.slots.Keys), now, f, hole);
    }
  }

  /** Otherwise it is held, and at most the oldest frame makes room for it. */
  lemma {:induction false} PartKeyLeaves(w: Window, h: Header, p: Bytes, now: nat, hole: nat)
    requires WellShaped(w) && NewKeyBefore(w, h, now, hole) && !Finishes(w, h) && h.frameId !in w.slots
    ensures var w' := Insert(w, h, p, now).0; Ahead(w', h.frameId, hole) && SameEnds(w, w')
  {
    var f: nat := h.frameId;
    var w1 := Stored(w, h, p, now).0;
    KeyStarts(w, h, p, now);
    StoredBase(w, h, p, now);
    SettleWaiting(w, f, w1, now);
    var w2 := RequestMissing(w1, now).0;
    StartsAhead(w, w2, f, hole);
    EnforceAhead(w, w2, f, hole, now);
    InsertIsSettle(w, h, p, now);
  }

  lemma {:induction false} HeldKeyStored(w: Window, h: Header, p: Bytes, now: nat, hole: nat)
    requires WellShaped(w) && NewKeyBefore(w, h, now, hole) && !Finishes(w, h) && h.frameId in w.slots
    ensures var w1 := Stored(w, h, p, now).0;
            && Ahead(w1, h.frameId, hole) && SameEnds(w, w1)
            && Released(w1) && |w1.slots| <= w1.config.maxHeld
  {
    var w1 := Stored(w, h, p, now).0;
    OldStored(w, h, p, now);
    assert w1.slots.Keys == w.slots.Keys;
    assert |w1.slots.Keys| == |w.slots.Keys|;
    assert CompleteKeys(w1) == {};
  }

  /** A held frame that turns out to be a keyframe stays. */
  lemma {:induction false} HeldKeyLeaves(w: Window, h: Header, p: Bytes, now: nat, hole: nat)
    requires WellShaped(w) && NewKeyBefore(w, h, now, hole) && !Finishes(w, h) && h.frameId in w.slots
    ensures var w' := Insert(w, h, p, now).0; Ahead(w', h.frameId, hole) && SameEnds(w, w')
  {
    var f: nat := h.frameId;
    var w1 := Stored(w, h, p, now).0;
    HeldKeyStored(w, h, p, now, hole);
    StoredBase(w, h, p, now);
    SettleIdle(w1, now);
    InsertIsSettle(w, h, p, now);
    SameFramesAhead(w1, Settle(w1, now).0, f, hole);
  }

  /** After an unsafe call some safe ones stall the window. */
  lemma {:induction false} UnsafeKeyStalls(w: Window, h: Header, p: Bytes, now: nat) returns (more: seq<Event>)
    requires Inv(w) && WellShaped(w) && WellTracked(w) && !KeySafe(w, h, now)
    requires w.highest.Some? ==> w.highest.value + 1 < 0x1_0000_0000_0000_0000
    ensures var w' := Insert(w, h, p, now).0;
            && Inv(w') && WellShaped(w') && SafePlay(w', more)
            && Inv(Play(w', more).0) && WellShaped(Play(w', more).0) && Stalled(Play(w', more).0)
  {
    var hole := UnsafeKeyIs(w, h, now);
    var w' := Insert(w, h, p, now).0;
    InsertInv(w, h, p, now);
    BaseIsShaped(w');
    if Finishes(w, h) {
      WholeKeyLeaves(w, h, p, now, hole);
      more := HoledStalls(w', hole, now);
    } else {
      if h.frameId in w.slots { HeldKeyLeaves(w, h, p, now, hole); } else { PartKeyLeaves(w, h, p, now, hole); }
      more := AheadStalls(w', h.frameId, hole, now);
    }
  }

  /** From any window a skip was unsafe in, some safe calls stall it. */
  lemma {:induction false} UnsafeSkipStalls(w: Window, now: nat) returns (more: seq<Event>)
    requires Inv(w) && WellShaped(w) && !SkipSafe(w)
    requires w.highest.Some? ==> w.highest.value + 1 < 0x1_0000_0000_0000_0000
    ensures var w' := RequireKeyframe(w, now);
            && Inv(w') && WellShaped(w') && SafePlay(w', more)
            && Inv(Play(w', more).0) && WellShaped(Play(w', more).0) && Stalled(Play(w', more).0)
  {
    RequireKeyframeInv(w, now);
    BaseIsShaped(RequireKeyframe(w, now));
    var k := UnsafeSkipLeaves(w, now);
    more := AheadStalls(RequireKeyframe(w, now), k, k + 1, now);
  }

  lemma {:induction false} UnsafeCanStall(w: Window, e: Event)
    requires Inv(w) && WellShaped(w) && WellTracked(w) && !Safe(w, e)
    requires w.highest.Some? ==> w.highest.value + 1 < 0x1_0000_0000_0000_0000
    ensures var w' := Step(w, e).0; Inv(w') && WellShaped(w') && CanStall(w')
  {
    var w' := Step(w, e).0;
    StepInv(w, e);
    BaseIsShaped(w');
    var more: seq<Event>;
    if e.Fragment? { more := UnsafeKeyStalls(w, e.h, e.payload, e.now); } else { more := UnsafeSkipStalls(w, e.now); }
    assert SafePlay(w', more);
  }

  /**
   * Exactly the unsafe calls can stall the window. After any run of safe calls, whatever comes next is
   * safe, which the window before it decides, if and only if no safe calls after it stall the window.
   */
  lemma {:induction false} SafeIff(c: Config, es: seq<Event>, e: Event)
    requires SafeRun(c, es)
    requires var w := Run(c, es).0; w.highest.Some? ==> w.highest.value + 1 < 0x1_0000_0000_0000_0000
    ensures var (w, w') := (Run(c, es).0, Step(Run(c, es).0, e).0);
            Inv(w') && WellShaped(w') && (Safe(w, e) <==> !CanStall(w'))
  {
    var w := Run(c, es).0;
    StepInv(w, e);
    BaseIsShaped(Step(w, e).0);
    RunTracked(c, es);
    if Safe(w, e) {
      StepTracked(w, e);
      TrackedCannotStall(Step(w, e).0);
    } else {
      UnsafeCanStall(w, e);
    }
  }

  /**
   * So a skip-ahead is safe, with no keyframe held or the newest frame seen one, exactly when nothing it
   * forgets can stall the window.
   */
  lemma {:induction false} SkipSafeIff(c: Config, es: seq<Event>, now: nat)
    requires SafeRun(c, es)
    requires var w := Run(c, es).0; w.highest.Some? ==> w.highest.value + 1 < 0x1_0000_0000_0000_0000
    ensures var (w, w') := (Run(c, es).0, RequireKeyframe(Run(c, es).0, now));
            Inv(w') && WellShaped(w') && (SkipSafe(w) <==> !CanStall(w'))
  {
    SafeIff(c, es, SkipAhead(now));
  }
}
