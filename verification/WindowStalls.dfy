/** Two families of runs that stall the window, each by one unsafe call. */
module WindowStalls {
  import opened Prelude
  import opened Wire
  import opened Fragments
  import opened WindowModel
  import opened WindowSteps
  import opened WindowInvariant
  import opened WindowRuns
  import opened WindowProgress
  import opened Recovery
  import opened Agreement

  /** The header of a whole frame in one fragment. */
  function Single(id: u64, isKey: bool): Header {
    Header(id, 0, 1, FlagBits(isKey, true, true), 0)
  }

  lemma {:induction false} SingleIsValid(id: u64, isKey: bool)
    ensures Validate(Single(id, isKey)).Ok? && IsKeyframe(Single(id, isKey)) == isKey
  {
  }

  /** An accepted fragment after which nothing can be handed out only changes request bookkeeping. */
  lemma {:induction false} InsertQuiet(w: Window, h: Header, payload: Bytes, now: nat)
    requires Inv(w) && WellShaped(w) && Accepted(w, h, now)
    requires var w1 := Stored(w, h, payload, now).0; Released(w1) && |w1.slots| <= w1.config.maxHeld
    ensures SameFrames(Stored(w, h, payload, now).0, Insert(w, h, payload, now).0)
  {
    StoredBase(w, h, payload, now);
    SettleIdle(Stored(w, h, payload, now).0, now);
    InsertIsSettle(w, h, payload, now);
  }

  /** A whole non-key frame stored while a keyframe is awaited stays where it is. */
  lemma {:induction false} LateStays(c: Config, a: u64, payload: Bytes, now: nat)
    requires c.maxHeld >= 1
    ensures Inv(New(c)) && WellShaped(New(c))
    ensures var w := Insert(New(c), Single(a, false), payload, now).0;
            && w.slots.Keys == {a as nat} && w.slots[a].complete.Some? && !w.slots[a].isKey
            && w.needKey && w.nextId.None? && w.highest == Some(a) && w.config == c
  {
    NewInv(c);
    BaseIsShaped(New(c));
    var h := Single(a, false);
    SingleIsValid(a, false);
    var w1 := NoteNewFrame(New(c), a, false, now).0;
    assert w1.slots == map[];
    var s := Sized(UNKNOWN, 1);
    assert SlotFor(w1, a, 1) == s;
    var stored := Stored(New(c), h, payload, now).0;
    assert stored.slots.Keys == {a as nat};
    assert CompleteKeys(stored) == {};
    InsertQuiet(New(c), h, payload, now);
  }

  /** Frame `a` held whole, out of reach, and nothing else. */
  predicate OnlyWhole(w: Window, a: nat) {
    w.slots.Keys == {a} && w.slots[a].complete.Some? && !w.slots[a].isKey && w.highest == Some(a)
  }

  /** A keyframe more than one below the only frame held goes out alone. */
  lemma {:induction false} ReleaseKeyAlone(w: Window, a: nat, b: nat)
    requires w.slots.Keys == {a, b} && b + 1 < a && w.needKey
    requires !w.slots[a].isKey && w.slots[a].complete.Some? && CompleteKey(w.slots[b])
    ensures var w1 := Release(w).0;
            && w1.slots.Keys == {a} && w1.slots[a] == w.slots[a]
            && w1.nextId == Some(b + 1) && !w1.needKey && w1.highest == w.highest && w1.config == w.config
  {
    assert a in w.slots.Keys && b in w.slots.Keys;
    assert CompleteKeys(w) == {b};
    LeastIs(b, {b});
    var w1 := TakeKey(w, b);
    assert w1.slots.Keys == {a};
    assert CompleteKeys(w1) == {};
    assert Release(w1) == (w1, []);
  }

  lemma {:induction false} SettleWhole(w: Window, a: nat, now: nat)
    requires WellShaped(w) && OnlyWhole(w, a) && w.config.maxHeld >= 1
    ensures EnforceCapacity(RequestMissing(w, now).0, now).0 == w
  {
    assert a in w.slots.Keys;
    var w1 := RequestMissing(w, now).0;
    assert w1.slots == w.slots;
    assert |w.slots.Keys| == 1;
  }

  lemma {:induction false} KeyStored(w: Window, a: nat, b: u64, payload: Bytes, now: nat)
    requires Inv(w) && WellShaped(w) && OnlyWhole(w, a) && b + 1 < a && w.needKey && w.nextId.None?
    ensures Accepted(w, Single(b, true), now)
    ensures var s := Stored(w, Single(b, true), payload, now).0;
            && s.slots.Keys == {a, b as nat} && s.slots[a] == w.slots[a] && CompleteKey(s.slots[b])
            && s.needKey && s.nextId.None? && s.highest == w.highest && s.config == w.config
            && Base(s) && WellShaped(s)
  {
    SingleIsValid(b, true);
    assert NoteNewFrame(w, b, true, now) == (NoteAsked(w, now), NO_LOSS);
    assert SlotFor(NoteAsked(w, now), b, 1) == Sized(UNKNOWN, 1);
    StoredBase(w, Single(b, true), payload, now);
    assert a in w.slots.Keys;
  }

  lemma {:induction false} KeyGoesOut(w: Window, a: nat, b: u64, payload: Bytes, now: nat)
    requires Inv(w) && WellShaped(w) && OnlyWhole(w, a) && b + 1 < a && w.needKey && w.nextId.None?
    requires w.config.maxHeld >= 1
    ensures var w' := Insert(w, Single(b, true), payload, now).0;
            OnlyWhole(w', a) && !w'.needKey && w'.nextId == Some(b as nat + 1)
  {
    KeyStored(w, a, b, payload, now);
    var s := Stored(w, Single(b, true), payload, now).0;
    ReleaseKeyAlone(s, a, b);
    SettleStages(s, now);
    SettleWhole(Release(s).0, a, now);
    InsertIsSettle(w, Single(b, true), payload, now);
  }

  lemma {:induction false} RunTwo(c: Config, e: Event, f: Event)
    ensures Inv(New(c)) && WellShaped(New(c))
    ensures var w := Step(New(c), e).0; WellShaped(w) && Inv(w) && Run(c, [e, f]).0 == Step(w, f).0
  {
    NewInv(c);
    BaseIsShaped(New(c));
    assert [e, f][..1] == [e];
    assert [e][..0] == [];
    assert Run(c, [e]).0 == Step(Run(c, []).0, e).0;
  }

  /** Passed over by the decoder, with only one whole later frame left: nothing will move it on. */
  predicate Stuck(w: Window, d: nat) {
    OnlyWhole(w, d) && !w.needKey && w.nextId.Some? && w.nextId.value < d
  }

  lemma {:induction false} StuckStalls(c: Config, es: seq<Event>, d: nat)
    requires Stuck(Run(c, es).0, d)
    ensures Stalled(Run(c, es).0)
  {
    assert d in Run(c, es).0.slots.Keys;
    StalledIff(c, es);
  }

  /**
   * When the first datagram is not of the lowest frame the window can stall: a frame held whole, and
   * then a keyframe from more than one before it, leave it waiting for a frame nobody will time out.
   */
  lemma {:induction false} StallsWithoutLowestFirst(c: Config, a: u64, b: u64, p: Bytes, q: Bytes, s: nat, t: nat)
    requires c.maxHeld >= 1 && b + 1 < a
    ensures Stalled(Run(c, [Fragment(Single(a, false), p, s), Fragment(Single(b, true), q, t)]).0)
  {
    var e, f := Fragment(Single(a, false), p, s), Fragment(Single(b, true), q, t);
    RunTwo(c, e, f);
    LateStays(c, a, p, s);
    var w := Step(New(c), e).0;
    KeyGoesOut(w, a, b, q, t);
    StuckStalls(c, [e, f], a);
  }

  // ---- after a skip-ahead ----

  /** The header of one of a frame's two fragments. */
  function Half(id: u64, i: nat, isKey: bool): Header
    requires i < 2
  {
    Header(id, i, 2, FlagBits(isKey, i == 0, i == 1), 0)
  }

  lemma {:induction false} HalfIsValid(id: u64, i: nat, isKey: bool)
    requires i < 2
    ensures Validate(Half(id, i, isKey)).Ok? && IsKeyframe(Half(id, i, isKey)) == isKey
  {
  }

  /** The first half of a frame is in its slot. */
  predicate FirstHalf(s: Slot, isKey: bool) {
    && s.complete.None? && s.fragTotal == Some(2) && |s.fragments| == 2 && s.received == 1
    && s.fragments[0].Some? && s.fragments[1].None? && s.isKey == isKey
  }

  lemma {:induction false} HalfStores(id: u64, isKey: bool, payload: Bytes)
    ensures var s := Store(Sized(UNKNOWN, 2), Half(id, 0, isKey), payload); FirstHalf(s, isKey) && !Full(s)
  {
    HalfIsValid(id, 0, isKey);
  }

  lemma {:induction false} FirstKeyHalf(c: Config, a: u64, payload: Bytes, now: nat)
    requires c.maxHeld >= 1
    ensures Inv(New(c)) && WellShaped(New(c))
    ensures var w := Insert(New(c), Half(a, 0, true), payload, now).0;
            && w.slots.Keys == {a as nat} && FirstHalf(w.slots[a], true)
            && w.needKey && w.nextId.None? && w.highest == Some(a) && w.config == c
  {
    NewInv(c);
    BaseIsShaped(New(c));
    HalfIsValid(a, 0, true);
    HalfStores(a, true, payload);
    var w1 := NoteNewFrame(New(c), a, true, now).0;
    assert w1.slots == map[];
    assert SlotFor(w1, a, 2) == Sized(UNKNOWN, 2);
    var stored := Stored(New(c), Half(a, 0, true), payload, now).0;
    assert stored.slots.Keys == {a as nat};
    assert CompleteKeys(stored) == {};
    InsertQuiet(New(c), Half(a, 0, true), payload, now);
  }

  lemma {:induction false} NextHalfStored(w: Window, a: nat, b: u64, payload: Bytes, now: nat)
    requires Inv(w) && WellShaped(w) && w.slots.Keys == {a} && FirstHalf(w.slots[a], true) && b == a + 1
    requires w.needKey && w.nextId.None? && w.highest == Some(a)
    ensures Accepted(w, Half(b, 0, false), now)
    ensures var w' := Stored(w, Half(b, 0, false), payload, now).0;
            && w'.slots.Keys == {a, b as nat} && FirstHalf(w'.slots[a], true) && FirstHalf(w'.slots[b], false)
            && w'.needKey && w'.nextId.None? && w'.highest == Some(b) && w'.config == w.config
  {
    HalfIsValid(b, 0, false);
    HalfStores(b, false, payload);
    assert a in w.slots.Keys;
    var w1 := NoteNewFrame(w, b, false, now).0;
    assert w1.slots.Keys == {a};
    assert SlotFor(w1, b, 2) == Sized(UNKNOWN, 2);
  }

  /** The first half of the next frame joins it. */
  lemma {:induction false} NextHalf(w: Window, a: nat, b: u64, payload: Bytes, now: nat)
    requires Inv(w) && WellShaped(w) && w.slots.Keys == {a} && FirstHalf(w.slots[a], true) && b == a + 1
    requires w.needKey && w.nextId.None? && w.highest == Some(a) && w.config.maxHeld >= 2
    ensures var w' := Insert(w, Half(b, 0, false), payload, now).0;
            && w'.slots.Keys == {a, b as nat} && FirstHalf(w'.slots[a], true) && FirstHalf(w'.slots[b], false)
            && w'.needKey && w'.nextId.None? && w'.highest == Some(b) && w'.config == w.config
  {
    NextHalfStored(w, a, b, payload, now);
    var stored := Stored(w, Half(b, 0, false), payload, now).0;
    assert a in stored.slots.Keys && b as nat in stored.slots.Keys;
    assert CompleteKeys(stored) == {};
    assert |stored.slots.Keys| == 2;
    InsertQuiet(w, Half(b, 0, false), payload, now);
  }

  /** Skipping ahead keeps the keyframe and forgets the frame after it. */
  lemma {:induction false} SkipForgets(w: Window, a: nat, b: nat, now: nat)
    requires w.slots.Keys == {a, b} && b == a + 1 && w.slots[a].isKey && !w.slots[b].isKey
    requires w.nextId.None? && w.highest == Some(b)
    ensures var w' := RequireKeyframe(w, now);
            && w'.slots.Keys == {a} && w'.slots[a] == w.slots[a]
            && w'.needKey && w'.nextId == Some(a) && w'.highest == Some(b) && w'.config == w.config
  {
    assert a in w.slots.Keys && b in w.slots.Keys;
    var w' := RequireKeyframe(w, now);
    assert w'.slots.Keys == {a};
    LeastIs(a, {a});
  }

  /** The keyframe's other half sends it out, and the window then waits for the forgotten frame. */
  lemma {:induction false} OtherHalf(w: Window, a: u64, b: nat, payload: Bytes, now: nat)
    requires Inv(w) && WellShaped(w) && w.slots.Keys == {a as nat} && FirstHalf(w.slots[a], true)
    requires w.needKey && w.highest == Some(b) && w.config.maxHeld >= 1
    ensures var w' := Insert(w, Half(a, 1, true), payload, now).0;
            && w'.slots == map[] && !w'.needKey && w'.nextId == Some(a as nat + 1) && w'.highest == Some(b)
            && w'.config == w.config
  {
    HalfIsValid(a, 1, true);
    assert a as nat in w.slots.Keys;
    LackingStored(w, Half(a, 1, true), payload, now);
    var s := Stored(w, Half(a, 1, true), payload, now).0;
    assert s.slots.Keys == {a as nat};
    ReleaseOnly(s, a);
    SettleStages(s, now);
    SettleEmpty(Release(s).0, now);
    InsertIsSettle(w, Half(a, 1, true), payload, now);
  }

  /** A whole frame after a forgotten one is held, and nothing is waited for. */
  lemma {:induction false} WholeAfter(w: Window, b: nat, d: u64, payload: Bytes, now: nat)
    requires Inv(w) && WellShaped(w) && w.slots == map[] && !w.needKey && w.nextId == Some(b) && b < d
    requires w.highest.Some? && w.highest.value + 1 == d && w.config.maxHeld >= 1
    ensures var w' := Insert(w, Single(d, false), payload, now).0;
            OnlyWhole(w', d) && !w'.needKey && w'.nextId == Some(b)
  {
    SingleIsValid(d, false);
    var w1 := NoteNewFrame(w, d, false, now).0;
    assert w1.slots == map[];
    assert SlotFor(w1, d, 1) == Sized(UNKNOWN, 1);
    var stored := Stored(w, Single(d, false), payload, now).0;
    assert stored.slots.Keys == {d as nat};
    assert CompleteKeys(stored) == {};
    InsertQuiet(w, Single(d, false), payload, now);
  }

  lemma {:induction false} RunMore(c: Config, es: seq<Event>, e: Event)
    ensures Run(c, es + [e]).0 == Step(Run(c, es).0, e).0
  {
    assert (es + [e])[..|es|] == es;
  }

  lemma {:induction false} RunSkip(c: Config, es: seq<Event>, now: nat)
    ensures Run(c, es + [SkipAhead(now)]).0 == RequireKeyframe(Run(c, es).0, now)
  {
    RunMore(c, es, SkipAhead(now));
  }

  function Halves(a: u64, p: Bytes, now: nat): seq<Event>
    requires a as nat + 1 < 0x1_0000_0000_0000_0000
  {
    [Fragment(Half(a, 0, true), p, now), Fragment(Half(a + 1, 0, false), p, now)]
  }

  lemma {:induction false} AfterHalves(c: Config, a: u64, p: Bytes, now: nat)
    requires c.maxHeld >= 2 && a as nat + 1 < 0x1_0000_0000_0000_0000
    ensures var w := Run(c, Halves(a, p, now)).0;
            && w.slots.Keys == {a as nat, a as nat + 1} && FirstHalf(w.slots[a], true)
            && FirstHalf(w.slots[a as nat + 1], false)
            && w.nextId.None? && w.highest == Some(a as nat + 1) && w.config == c
  {
    var es := Halves(a, p, now);
    RunTwo(c, es[0], es[1]);
    FirstKeyHalf(c, a, p, now);
    NextHalf(Step(New(c), es[0]).0, a, a + 1, p, now);
  }

  lemma {:induction false} AfterSkip(c: Config, a: u64, p: Bytes, now: nat)
    requires c.maxHeld >= 2 && a as nat + 1 < 0x1_0000_0000_0000_0000
    ensures var w := Run(c, Halves(a, p, now) + [SkipAhead(now)]).0;
            && w.slots.Keys == {a as nat} && FirstHalf(w.slots[a], true)
            && w.needKey && w.highest == Some(a as nat + 1) && w.config == c
  {
    AfterHalves(c, a, p, now);
    RunSkip(c, Halves(a, p, now), now);
    SkipForgets(Run(c, Halves(a, p, now)).0, a, a as nat + 1, now);
  }

  lemma {:induction false} AfterOtherHalf(c: Config, a: u64, p: Bytes, now: nat)
    requires c.maxHeld >= 2 && a as nat + 1 < 0x1_0000_0000_0000_0000
    ensures var w := Run(c, Halves(a, p, now) + [SkipAhead(now)] + [Fragment(Half(a, 1, true), p, now)]).0;
            && w.slots == map[] && !w.needKey && w.nextId == Some(a as nat + 1) && w.highest == Some(a as nat + 1)
            && w.config == c
  {
    AfterSkip(c, a, p, now);
    var es := Halves(a, p, now) + [SkipAhead(now)];
    RunMore(c, es, Fragment(Half(a, 1, true), p, now));
    OtherHalf(Run(c, es).0, a, a as nat + 1, p, now);
  }

  /**
   * A skip-ahead can stall the window even when the first datagram is of the lowest frame: half a
   * keyframe, half the frame after it, a skip, the keyframe's other half, and a whole frame after those.
   */
  lemma {:induction false} StallsAfterSkip(c: Config, a: u64, p: Bytes, now: nat)
    requires c.maxHeld >= 2 && a as nat + 2 < 0x1_0000_0000_0000_0000
    ensures var es := Halves(a, p, now) + [SkipAhead(now)] + [Fragment(Half(a, 1, true), p, now)];
            Stalled(Run(c, es + [Fragment(Single(a + 2, false), p, now)]).0)
  {
    AfterOtherHalf(c, a, p, now);
    var es := Halves(a, p, now) + [SkipAhead(now)] + [Fragment(Half(a, 1, true), p, now)];
    var e := Fragment(Single(a + 2, false), p, now);
    RunMore(c, es, e);
    WholeAfter(Run(c, es).0, a as nat + 1, a + 2, p, now);
    StalledIff(c, es + [e]);
    assert a as nat + 2 in Run(c, es + [e]).0.slots.Keys;
  }
}
