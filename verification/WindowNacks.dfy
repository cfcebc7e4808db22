/** Retransmit requests: each names only what is missing and useful, and there are boundedly many. */
module WindowNacks {
  import opened Prelude
  import opened Wire
  import opened Fragments
  import opened WindowModel
  import opened WindowSteps
  import opened WindowInvariant
  import opened WindowRuns
  import opened WindowTimers

  // ---- every request is justified ----

  /** In order, fragments the frame lacks and that are known to have been sent; or all of it. */
  predicate NamesMissing(s: Slot, tailKnown: bool, fragIds: seq<nat>)
    requires Shaped(s) && s.complete.None?
  {
    && (s.fragTotal.None? ==> fragIds == [])
    && (s.fragTotal.Some? ==>
          && fragIds != []
          && Ascending(fragIds)
          && (forall k :: k in fragIds ==>
                k < s.fragTotal.value && s.fragments[k].None? && (tailKnown || k < s.highestFrag)))
  }

  /** A request names what `w` knows to be missing from a frame it still needs, and nothing else. */
  predicate Justified(w: Window, n: Nack)
    requires WellShaped(w)
  {
    && n.frameId in w.slots && (w.nextId.Some? ==> n.frameId >= w.nextId.value)
    && (forall k :: k in w.slots && k > n.frameId ==> !w.slots[k].isKey)
    && var s := w.slots[n.frameId];
       && s.complete.None? && (w.needKey ==> s.isKey || s.fragTotal.None?)
       && NamesMissing(s, w.highest.Some? && n.frameId < w.highest.value, n.fragIds)
  }

  lemma {:induction false} NotYetAskedSorted(s: Slot, missing: seq<nat>)
    requires forall i :: 0 <= i < |missing| ==> missing[i] < |s.asked|
    requires forall i, j :: 0 <= i < j < |missing| ==> missing[i] < missing[j]
    ensures forall i, j :: 0 <= i < j < |NotYetAsked(s, missing)| ==> NotYetAsked(s, missing)[i] < NotYetAsked(s, missing)[j]
  {
    if missing != [] {
      NotYetAskedSorted(s, missing[1..]);
      var rest := NotYetAsked(s, missing[1..]);
      forall i | 0 <= i < |rest| ensures missing[0] < rest[i] {
        assert rest[i] in missing[1..];
      }
    }
  }

  predicate Ascending(ids: seq<nat>) {
    forall i, j :: 0 <= i < j < |ids| ==> ids[i] < ids[j]
  }

  lemma {:induction false} HolesAsk(s: Slot, missing: seq<nat>, retry: bool, now: nat)
    requires Ascending(missing) && forall i :: 0 <= i < |missing| ==> missing[i] < |s.asked|
    requires RequestHoles(s, missing, retry, now).1.Some?
    ensures var ask := RequestHoles(s, missing, retry, now).1.value;
            ask != [] && Ascending(ask) && forall k :: k in ask ==> k in missing
  {
    NotYetAskedSorted(s, missing);
  }

  lemma {:induction false} MissingAre(id: nat, s: Slot, tailKnown: bool)
    requires SlotOk(id, s) && Shaped(s) && s.complete.None? && s.fragTotal.Some?
    ensures Ascending(Missing(s, tailKnown))
    ensures forall i :: 0 <= i < |Missing(s, tailKnown)| ==> Missing(s, tailKnown)[i] < |s.asked|
    ensures forall k :: k in Missing(s, tailKnown) ==>
              k < s.fragTotal.value && s.fragments[k].None? && (tailKnown || k < s.highestFrag)
  {
    var missing := Missing(s, tailKnown);
    assert forall i :: 0 <= i < |missing| ==> missing[i] in missing;
  }

  lemma {:induction false} SlotAsks(id: nat, s: Slot, tailKnown: bool, due: bool, limit: nat, now: nat)
    requires SlotOk(id, s) && Shaped(s) && s.complete.None?
    requires RequestSlot(s, tailKnown, due, limit, now).1.Some?
    ensures NamesMissing(s, tailKnown, RequestSlot(s, tailKnown, due, limit, now).1.value)
  {
    if s.fragTotal.Some? {
      MissingAre(id, s, tailKnown);
      HolesAsk(s, Missing(s, tailKnown), due && s.nackRounds < limit, now);
    }
  }

  lemma {:induction false} RequestJustified(w: Window, id: nat, now: nat)
    requires Base(w) && WellShaped(w) && id in w.slots && Request(w, id, now).1.Some?
    ensures Justified(w, Nack(id, Request(w, id, now).1.value))
  {
    var s := w.slots[id];
    assert SlotOk(id, s) && Shaped(s) && InRange(w, id);
    SlotAsks(id, s, TailKnown(w, id), RetryDue(w, s, now), w.config.maxNackRounds, now);
  }

  lemma {:induction false} RequestsForJustified(w: Window, ids: set<nat>, now: nat)
    requires Base(w) && WellShaped(w) && ids <= w.slots.Keys
    ensures forall n :: n in RequestsFor(w, ids, now) ==> Justified(w, n)
  {
    if ids != {} {
      var id := Least(ids);
      RequestsForJustified(w, ids - {id}, now);
      if Request(w, id, now).1.Some? { RequestJustified(w, id, now); }
    }
  }

  /** The window as the request pass of a call sees it. */
  ghost function AtRequests(w: Window, e: Event): (w': Window)
    requires Inv(w) && WellShaped(w)
    ensures Base(w') && WellShaped(w')
  {
    if e.Fragment? && Accepted(w, e.h, e.now) then
      StoredBase(w, e.h, e.payload, e.now);
      var stored := Stored(w, e.h, e.payload, e.now).0;
      ReleaseSafeAny(stored);
      BaseIsShaped(Release(stored).0);
      Release(stored).0
    else if e.Tick? then
      NothingExpires(w, e.now);
      GiveUpExpired(w, e.now).0
    else w
  }

  /** A call's requests are those of one request pass. */
  lemma {:induction false} StepNacks(w: Window, e: Event)
    requires Inv(w) && WellShaped(w)
    ensures Step(w, e).1.nacks ==
              (if e.Fragment? && Accepted(w, e.h, e.now) then RequestMissing(AtRequests(w, e), e.now).1
               else if e.Tick? then RequestMissing(AtRequests(w, e), e.now).1
               else [])
  {
    if e.Fragment? {
      if Accepted(w, e.h, e.now) {
        StoredBase(w, e.h, e.payload, e.now);
        SettleNacks(Stored(w, e.h, e.payload, e.now).0, e.now);
      } else {
        InsertRefused(w, e.h, e.payload, e.now);
      }
    }
  }

  lemma {:induction false} SettleNacks(w: Window, now: nat)
    requires Base(w) && WellShaped(w)
    ensures WellShaped(Release(w).0) && Settle(w, now).1.nacks == RequestMissing(Release(w).0, now).1
  {
    ReleaseStage(w);
    RequestStage(Release(w).0, now);
    SettleStages(w, now);
  }

  /**
   * In every reachable state, every request a call sends names, in increasing order, fragments that
   * are missing from an incomplete frame still needed, with no later keyframe held.
   */
  lemma {:induction false} NacksJustified(c: Config, es: seq<Event>, e: Event)
    ensures var w := Run(c, es).0;
            forall n :: n in Step(w, e).1.nacks ==> Justified(AtRequests(w, e), n)
  {
    var w := Run(c, es).0;
    StepNacks(w, e);
    RequestsForJustified(AtRequests(w, e), AtRequests(w, e).slots.Keys, if e.Fragment? || e.Tick? then e.now else 0);
  }

  // ---- there are boundedly many ----

  /** The requests for frame `id` in one call's output. */
  function RequestsOf(nacks: seq<Nack>, id: nat): seq<seq<nat>> {
    if nacks == [] then []
    else (if nacks[0].frameId == id then [nacks[0].fragIds] else []) + RequestsOf(nacks[1..], id)
  }

  /** Every request sent for frame `id` over a run since it was last added to the window. */
  ghost function SentFor(c: Config, es: seq<Event>, id: nat): seq<seq<nat>> {
    if es == [] then []
    else
      var before := es[..|es| - 1];
      var (w, outs) := Run(c, before);
      (if id in w.slots then SentFor(c, before, id) else [])
      + RequestsOf(Step(w, es[|es| - 1]).1.nacks, id)
  }

  /** How many requests asked for the whole frame. */
  function Wholes(sent: seq<seq<nat>>): nat {
    if sent == [] then 0 else Wholes(sent[..|sent| - 1]) + if sent[|sent| - 1] == [] then 1 else 0
  }

  /** How many requests named fragment `k`. */
  function Namings(sent: seq<seq<nat>>, k: nat): nat {
    if sent == [] then 0 else Namings(sent[..|sent| - 1], k) + if k in sent[|sent| - 1] then 1 else 0
  }

  /** What the slot's counters say about the requests sent for it. */
  ghost predicate Counted(s: Slot, sent: seq<seq<nat>>, limit: nat) {
    && Wholes(sent) <= s.nackRounds <= limit
    && (forall k: nat :: Namings(sent, k) <= s.nackRounds)
    && (s.complete.None? ==>
          forall k: nat :: (s.fragTotal.None? || k >= |s.asked| || !s.asked[k]) ==> Namings(sent, k) == 0)
  }

  lemma {:induction false} RequestsForOf(w: Window, ids: set<nat>, now: nat, id: nat)
    requires WellShaped(w) && ids <= w.slots.Keys
    ensures RequestsOf(RequestsFor(w, ids, now), id) ==
              if id in ids && Request(w, id, now).1.Some? then [Request(w, id, now).1.value] else []
  {
    if ids != {} {
      var least := Least(ids);
      RequestsForOf(w, ids - {least}, now, id);
      var rest := RequestsFor(w, ids - {least}, now);
      var ask := Request(w, least, now).1;
      if ask.Some? {
        assert ([Nack(least, ask.value)] + rest)[1..] == rest;
      } else {
        assert RequestsFor(w, ids, now) == rest;
      }
    }
  }

  lemma {:induction false} RequestMissingOf(w: Window, now: nat, id: nat)
    requires WellShaped(w)
    ensures RequestsOf(RequestMissing(w, now).1, id) ==
              if id in w.slots && Request(w, id, now).1.Some? then [Request(w, id, now).1.value] else []
  {
    RequestsForOf(w, w.slots.Keys, now, id);
  }

  lemma {:induction false} CountsAppend(sent: seq<seq<nat>>, ask: seq<nat>)
    ensures Wholes(sent + [ask]) == Wholes(sent) + (if ask == [] then 1 else 0)
    ensures forall k: nat :: Namings(sent + [ask], k) == Namings(sent, k) + (if k in ask then 1 else 0)
  {
    assert (sent + [ask])[..|sent|] == sent;
  }

  /** One request pass keeps the count. */
  lemma {:induction false} RequestCounted(w: Window, id: nat, now: nat, sent: seq<seq<nat>>)
    requires Base(w) && WellShaped(w) && id in w.slots && w.config.maxNackRounds >= 1
    requires Counted(w.slots[id], sent, w.config.maxNackRounds)
    ensures var (r, ask) := Request(w, id, now);
            Counted(r, sent + (if ask.Some? then [ask.value] else []), w.config.maxNackRounds)
  {
    var s := w.slots[id];
    var (r, ask) := Request(w, id, now);
    assert SlotOk(id, s) && Shaped(s);
    if ask.Some? {
      CountsAppend(sent, ask.value);
      RequestJustified(w, id, now);
      if s.fragTotal.Some? {
        var missing := Missing(s, TailKnown(w, id));
        assert forall i :: 0 <= i < |missing| ==> missing[i] in missing;
        HolesCounted(s, missing, MayRetry(w, s, now), w.config.maxNackRounds, now, sent);
      } else {
        assert forall k: nat :: k !in ask.value;
      }
    } else {
      assert sent + [] == sent;
      RequestNoneCounted(w, id, now);
    }
  }

  lemma {:induction false} HolesCounted(s: Slot, missing: seq<nat>, retry: bool, limit: nat, now: nat,
                                        sent: seq<seq<nat>>)
    requires forall i :: 0 <= i < |missing| ==> missing[i] < |s.asked|
    requires s.complete.None? && s.fragTotal.Some? && missing != [] && limit >= 1 && AskedOk(s)
    requires retry ==> s.nackRounds < limit
    requires Counted(s, sent, limit) && RequestHoles(s, missing, retry, now).1.Some?
    ensures Counted(RequestHoles(s, missing, retry, now).0, sent + [RequestHoles(s, missing, retry, now).1.value], limit)
  {
    var (r, ask) := RequestHoles(s, missing, retry, now);
    CountsAppend(sent, ask.value);
    assert ask.value[0] in ask.value;
    forall k: nat ensures Namings(sent + [ask.value], k) <= r.nackRounds
                     && (k >= |r.asked| || !r.asked[k] ==> Namings(sent + [ask.value], k) == 0) {
      assert Namings(sent, k) <= s.nackRounds;
      if k in ask.value {
        var i :| 0 <= i < |ask.value| && ask.value[i] == k;
        assert k in missing;
        var j :| 0 <= j < |missing| && missing[j] == k;
        assert k < |s.asked|;
      }
    }
  }

  /** A pass that asks for nothing leaves the counters alone. */
  lemma {:induction false} RequestNoneCounted(w: Window, id: nat, now: nat)
    requires Base(w) && WellShaped(w) && id in w.slots && Request(w, id, now).1.None?
    ensures var r := Request(w, id, now).0; var s := w.slots[id];
            r.nackRounds == s.nackRounds && r.asked == s.asked && r.complete == s.complete && r.fragTotal == s.fragTotal
  {
    var s := w.slots[id];
    assert SlotOk(id, s) && Shaped(s);
    if s.fragTotal.Some? {
      var missing := Missing(s, TailKnown(w, id));
      assert forall i :: 0 <= i < |missing| ==> missing[i] in missing;
    }
  }

  // ---- between request passes the counters carry over ----

  /** No fragment of `t` is missing from `u`. */
  predicate Keeps(t: Table, u: Table) {
    |u| == |t| && forall k :: 0 <= k < |t| && t[k].Some? ==> u[k].Some?
  }

  /** From `s` to `r` the request counters are untouched, or the frame's size just became known. */
  predicate CountsCarry(s: Slot, r: Slot) {
    && r.nackRounds == s.nackRounds && r.lastNack == s.lastNack && r.askedWhole == s.askedWhole
    && (r.complete.None? ==>
          && s.complete.None?
          && ((r.fragTotal == s.fragTotal && r.asked == s.asked && Keeps(s.fragments, r.fragments))
              || (s.fragTotal.None? && r.fragTotal.Some? && forall k :: 0 <= k < |r.asked| ==> !r.asked[k])))
  }

  lemma {:induction false} CarryCounted(s: Slot, r: Slot, sent: seq<seq<nat>>, limit: nat)
    requires Counted(s, sent, limit) && CountsCarry(s, r)
    ensures Counted(r, sent, limit)
  {
  }

  function Before(w: Window, id: nat): Slot {
    if id in w.slots then w.slots[id] else UNKNOWN
  }

  lemma {:induction false} MarkCarries(s: Slot, now: nat)
    requires Shaped(s)
    ensures CountsCarry(s, MarkTail(s, now))
  {
  }

  lemma {:induction false} FillCarries(w: Window, highest: nat, f: nat, now: nat, id: nat)
    requires id in FillGap(w, highest, f, now).slots
    ensures CountsCarry(Before(w, id), FillGap(w, highest, f, now).slots[id])
  {
  }

  lemma {:induction false} DropCarries(w: Window, f: nat, isKey: bool, now: nat, id: nat)
    requires id in Discontinuity(w, f, isKey, now).0.slots
    ensures id in w.slots && Discontinuity(w, f, isKey, now).0.slots[id] == w.slots[id]
  {
  }

  lemma {:induction false} NoteCarries(w: Window, f: nat, isKey: bool, now: nat, id: nat)
    requires WellShaped(w) && id in NoteNewFrame(w, f, isKey, now).0.slots
    ensures CountsCarry(Before(w, id), NoteNewFrame(w, f, isKey, now).0.slots[id])
  {
    var w0 := NoteAsked(w, now);
    if w0.highest.Some? && f > w0.highest.value {
      var highest := w0.highest.value;
      var w1 := MarkTails(w0, now).(highest := Some(f));
      if id in w.slots { MarkCarries(w.slots[id], now); }
      assert CountsCarry(Before(w, id), Before(w1, id));
      if f - highest - 1 == 0 {
      } else if f - highest - 1 > w.config.maxGap {
        DropCarries(w1, f, isKey, now, id);
      } else {
        FillCarries(w1, highest, f, now, id);
      }
    }
  }

  lemma {:induction false} AcceptCarries(w: Window, h: Header, payload: Bytes, id: nat)
    requires WellShaped(w)
    requires var slot := SlotFor(w, h.frameId, h.fragTotal); slot.complete.None? && h.fragId < |slot.fragments|
    requires id in Accept(w, SlotFor(w, h.frameId, h.fragTotal), h, payload).0.slots
    ensures CountsCarry(Before(w, id), Accept(w, SlotFor(w, h.frameId, h.fragTotal), h, payload).0.slots[id])
  {
  }

  lemma {:induction false} CarryTransitive(a: Slot, b: Slot, c: Slot)
    requires CountsCarry(a, b) && CountsCarry(b, c)
    ensures CountsCarry(a, c)
  {
  }

  lemma {:induction false} StoredCarries(w: Window, h: Header, payload: Bytes, now: nat, id: nat)
    requires Base(w) && WellShaped(w) && Accepted(w, h, now) && id in Stored(w, h, payload, now).0.slots
    ensures CountsCarry(Before(w, id), Stored(w, h, payload, now).0.slots[id])
  {
    NoteKeepsShape(w, h.frameId, IsKeyframe(h), now);
    NoteBase(w, h.frameId, IsKeyframe(h), now);
    var w1 := NoteNewFrame(w, h.frameId, IsKeyframe(h), now).0;
    SlotForOpen(w1, h.frameId, h.fragTotal);
    AcceptCarries(w1, h, payload, id);
    if id in w1.slots {
      NoteCarries(w, h.frameId, IsKeyframe(h), now, id);
    } else {
      NoteLosesOnlyStale(w, h.frameId, IsKeyframe(h), now, id);
    }
    CarryTransitive(Before(w, id), Before(w1, id), Stored(w, h, payload, now).0.slots[id]);
  }

  /** The frame that arrives is not one the jump to it drops. */
  lemma {:induction false} NoteLosesOnlyStale(w: Window, f: nat, isKey: bool, now: nat, id: nat)
    requires Base(w) && WellShaped(w) && id >= f && id !in NoteNewFrame(w, f, isKey, now).0.slots
    ensures id !in w.slots
  {
  }

  lemma {:induction false} AtRequestsCarries(w: Window, e: Event, id: nat)
    requires Inv(w) && WellShaped(w) && id in AtRequests(w, e).slots
    ensures CountsCarry(Before(w, id), AtRequests(w, e).slots[id])
  {
    if e.Fragment? && Accepted(w, e.h, e.now) {
      ReleaseKeeps(Stored(w, e.h, e.payload, e.now).0);
      StoredCarries(w, e.h, e.payload, e.now, id);
    } else if e.Tick? && Expired(w, e.now) != {} {
      GiveUpInv(w, Greatest(Expired(w, e.now)), e.now);
    }
  }

  /** What a call leaves in a slot is what its request pass left there. */
  lemma {:induction false} AfterRequests(w: Window, e: Event, id: nat)
    requires Inv(w) && WellShaped(w) && id in Step(w, e).0.slots
    ensures id in AtRequests(w, e).slots
    ensures Step(w, e).0.slots[id]
            == if e.Tick? || (e.Fragment? && Accepted(w, e.h, e.now))
               then Request(AtRequests(w, e), id, e.now).0 else Before(w, id)
  {
    if e.Fragment? {
      if Accepted(w, e.h, e.now) {
        SettleSlots(Stored(w, e.h, e.payload, e.now).0, e.now, id);
      } else {
        InsertRefused(w, e.h, e.payload, e.now);
      }
    }
  }

  lemma {:induction false} SettleSlots(w: Window, now: nat, id: nat)
    requires WellShaped(w) && id in Settle(w, now).0.slots
    ensures WellShaped(Release(w).0) && id in Release(w).0.slots
    ensures Settle(w, now).0.slots[id] == Request(Release(w).0, id, now).0
  {
    ReleaseKeeps(w);
    EnforceSubset(RequestMissing(Release(w).0, now).0, now);
  }

  lemma {:induction false} EnforceSubset(w: Window, now: nat)
    ensures var w' := EnforceCapacity(w, now).0;
            forall id :: id in w'.slots ==> id in w.slots && w'.slots[id] == w.slots[id]
    decreases w.slots.Keys
  {
    if |w.slots| > w.config.maxHeld {
      var oldest := Least(w.slots.Keys);
      GiveUpKeeps(w, oldest, now);
      EnforceSubset(GiveUpThrough(w, oldest, now).0, now);
    }
  }

  ghost predicate Bounded(sent: seq<seq<nat>>, limit: nat) {
    Wholes(sent) <= limit && forall k: nat :: Namings(sent, k) <= limit
  }

  ghost function Asks(w: Window, e: Event, id: nat): seq<seq<nat>>
    requires Inv(w) && WellShaped(w)
  {
    RequestsOf(Step(w, e).1.nacks, id)
  }

  lemma {:induction false} StepAsks(w: Window, e: Event, id: nat)
    requires Inv(w) && WellShaped(w)
    ensures Asks(w, e, id) ==
              if id in AtRequests(w, e).slots && (e.Tick? || (e.Fragment? && Accepted(w, e.h, e.now)))
                 && Request(AtRequests(w, e), id, e.now).1.Some?
              then [Request(AtRequests(w, e), id, e.now).1.value] else []
  {
    StepNacks(w, e);
    if e.Tick? || (e.Fragment? && Accepted(w, e.h, e.now)) {
      RequestMissingOf(AtRequests(w, e), e.now, id);
    }
  }

  lemma {:induction false} StepCounted(w: Window, e: Event, id: nat, sent: seq<seq<nat>>)
    requires Inv(w) && WellShaped(w) && w.config.maxNackRounds >= 1
    requires AtRequests(w, e).config == w.config
    requires Counted(Before(w, id), sent, w.config.maxNackRounds)
    ensures Bounded(sent + Asks(w, e, id), w.config.maxNackRounds)
    ensures id in Step(w, e).0.slots ==> Counted(Step(w, e).0.slots[id], sent + Asks(w, e, id), w.config.maxNackRounds)
  {
    var limit := w.config.maxNackRounds;
    StepAsks(w, e, id);
    var w1 := AtRequests(w, e);
    if id in w1.slots {
      AtRequestsCarries(w, e, id);
      CarryCounted(Before(w, id), w1.slots[id], sent, limit);
      if e.Tick? || (e.Fragment? && Accepted(w, e.h, e.now)) {
        RequestCounted(w1, id, e.now, sent);
      }
    }
    assert sent + [] == sent;
    if id in Step(w, e).0.slots {
      AfterRequests(w, e, id);
      if e.Tick? || (e.Fragment? && Accepted(w, e.h, e.now)) {
        CarryCounted(Request(w1, id, e.now).0, Step(w, e).0.slots[id], sent + Asks(w, e, id), limit);
      } else {
        CarryCounted(Before(w, id), Step(w, e).0.slots[id], sent, limit);
      }
    }
  }

  lemma {:induction false} AtRequestsConfig(w: Window, e: Event)
    requires Inv(w) && WellShaped(w)
    ensures AtRequests(w, e).config == w.config && Step(w, e).0.config == w.config
  {
    if e.Fragment? {
      if Accepted(w, e.h, e.now) {
        NoteBase(w, e.h.frameId, IsKeyframe(e.h), e.now);
        var w1 := Stored(w, e.h, e.payload, e.now).0;
        ReleaseKeeps(w1);
        StoredBase(w, e.h, e.payload, e.now);
        SettleConfig(w1, e.now);
      } else {
        InsertRefused(w, e.h, e.payload, e.now);
      }
    } else if e.Tick? {
      NothingExpires(w, e.now);
    }
  }

  lemma {:induction false} SettleConfig(w: Window, now: nat)
    requires Base(w) && WellShaped(w)
    ensures Settle(w, now).0.config == w.config
  {
    ReleaseStage(w);
    RequestStage(Release(w).0, now);
    SettleStages(w, now);
    EnforceInv(RequestMissing(Release(w).0, now).0, now);
  }

  lemma {:induction false} RunCounted(c: Config, es: seq<Event>, id: nat)
    requires c.maxNackRounds >= 1
    ensures var w := Run(c, es).0;
            && w.config == c
            && Bounded(SentFor(c, es, id), c.maxNackRounds)
            && (id in w.slots ==> Counted(w.slots[id], SentFor(c, es, id), c.maxNackRounds))
  {
    if es != [] {
      var before := es[..|es| - 1];
      var e := es[|es| - 1];
      RunCounted(c, before, id);
      var w := Run(c, before).0;
      AtRequestsConfig(w, e);
      var sent := if id in w.slots then SentFor(c, before, id) else [];
      StepCounted(w, e, id, sent);
    }
  }

  // ---- how many requests one frame can bring ----

  /** The fragments from the first on that have arrived or been asked for, without a gap. */
  function AccountedFrom(t: Table, asked: seq<bool>, i: nat): (p: nat)
    requires |t| == |asked| && i <= |t|
    ensures i <= p <= |t| && (p < |t| ==> t[p].None? && !asked[p])
    ensures forall k :: i <= k < p ==> t[k].Some? || asked[k]
    decreases |t| - i
  {
    if i == |t| || (t[i].None? && !asked[i]) then i else AccountedFrom(t, asked, i + 1)
  }

  function Accounted(s: Slot): (p: nat)
    requires |s.fragments| == |s.asked|
    ensures p <= |s.fragments| && (p < |s.fragments| ==> s.fragments[p].None? && !s.asked[p])
    ensures forall k :: 0 <= k < p ==> s.fragments[k].Some? || s.asked[k]
  {
    AccountedFrom(s.fragments, s.asked, 0)
  }

  lemma {:induction false} AccountedAtLeast(s: Slot, q: nat)
    requires |s.fragments| == |s.asked| && q <= |s.fragments|
    requires forall k :: 0 <= k < q ==> s.fragments[k].Some? || s.asked[k]
    ensures Accounted(s) >= q
  {
  }

  /** How often something new can be named in the first `p` of `n` fragments: every time skips one, or is the tail. */
  function News(p: nat, n: nat): nat {
    if p == n then (n + 1) / 2 else p / 2
  }

  /** A frame is known of before its size is: after a gap, so not the first frame of all. */
  predicate CanBeUnknown(c: Config, id: nat) { id > 0 && c.maxGap >= 1 }

  /**
   * The most requests one stay of a frame of at most `n` fragments can bring. A frame in one piece is only
   * ever asked for whole. Any other is asked for in rounds, the first of which may be for something new;
   * naming something new takes no other round. Of a frame first asked for whole everything is new at once.
   */
  function MostRequests(c: Config, id: nat, n: nat): nat
    requires c.maxNackRounds >= 1
  {
    if n <= 1 then if CanBeUnknown(c, id) then c.maxNackRounds else 0
    else c.maxNackRounds - 1 + Max(if CanBeUnknown(c, id) then 2 else 1, (n + 1) / 2)
  }

  /** What a slot's counters and tables say of the number of requests sent for it. */
  predicate Tallied(s: Slot, sent: nat, most: nat, limit: nat) {
    && s.nackRounds <= limit && (s.lastNack.Some? ==> s.nackRounds > 0)
    && (s.complete.Some? ==> sent <= most)
    && (s.complete.None? && s.fragTotal.None? ==>
          sent <= s.nackRounds && (s.nackRounds > 0 ==> s.askedWhole))
    && (s.complete.None? && s.fragTotal.Some? ==>
          && |s.fragments| == |s.asked| == s.fragTotal.value
          && if s.askedWhole then sent <= s.nackRounds + (if Accounted(s) == |s.fragments| then 1 else 0)
             else (sent == 0 && s.nackRounds == 0)
                  || (s.nackRounds > 0 && sent + 1 <= s.nackRounds + News(Accounted(s), |s.fragments|)))
  }

  /** The slot was made, or asked for, before the size of its frame was known. */
  predicate WasUnknown(s: Slot) {
    s.complete.None? && (s.fragTotal.None? || s.askedWhole)
  }

  lemma {:induction false} TallyBounds(c: Config, id: nat, n: nat, s: Slot, sent: nat)
    requires c.maxNackRounds >= 1 && SlotOk(id, s) && TotalWithin(s, n)
    requires Tallied(s, sent, MostRequests(c, id, n), c.maxNackRounds) && (WasUnknown(s) ==> CanBeUnknown(c, id))
    ensures sent <= MostRequests(c, id, n)
  {
  }

  lemma {:induction false} CarryTallied(id: nat, s: Slot, r: Slot, sent: nat, most: nat, limit: nat)
    requires Tallied(s, sent, most, limit) && CountsCarry(s, r) && Shaped(r) && (r.complete.Some? ==> sent <= most)
    ensures Tallied(r, sent, most, limit)
  {
    if r.complete.None? && s.fragTotal.Some? {
      AccountedAtLeast(r, Accounted(s));
    }
  }

  // ---- one pass keeps the tally ----

  lemma {:induction false} RetryTallied(s: Slot, missing: seq<nat>, now: nat, sent: nat, most: nat, limit: nat)
    requires Tallied(s, sent, most, limit) && s.complete.None? && s.fragTotal.Some? && s.lastNack.Some?
    requires s.nackRounds < limit && missing != [] && forall i :: 0 <= i < |missing| ==> missing[i] < |s.asked|
    ensures Tallied(RequestHoles(s, missing, true, now).0, sent + 1, most, limit)
  {
    var r := RequestHoles(s, missing, true, now).0;
    AccountedAtLeast(r, Accounted(s));
  }

  lemma {:induction false} AllAsked(s: Slot, tailKnown: bool, r: Slot)
    requires Shaped(s) && s.complete.None? && s.fragTotal.Some?
    requires r.fragments == s.fragments && |r.asked| == |s.asked|
    requires forall k :: 0 <= k < |s.asked| ==> r.asked[k] == (s.asked[k] || k in Missing(s, tailKnown))
    ensures KnownUpTo(s, tailKnown) <= |r.fragments| && Accounted(r) >= KnownUpTo(s, tailKnown)
  {
    AccountedAtLeast(r, KnownUpTo(s, tailKnown));
  }

  /** Naming something new passes over a fragment that is in, or takes in the tail. */
  lemma {:induction false} NewsGrow(id: nat, s: Slot, tailKnown: bool, r: Slot, hole: nat)
    requires SlotOk(id, s) && Shaped(s) && s.complete.None? && s.fragTotal.Some?
    requires r.fragments == s.fragments && |r.asked| == |s.asked|
    requires forall k :: 0 <= k < |s.asked| ==> r.asked[k] == (s.asked[k] || k in Missing(s, tailKnown))
    requires hole in Missing(s, tailKnown) && hole < |s.asked| && !s.asked[hole]
    ensures Accounted(s) < |s.fragments|
    ensures if tailKnown then Accounted(r) == |s.fragments| else Accounted(r) >= Accounted(s) + 2
  {
    MissingAre(id, s, tailKnown);
    AllAsked(s, tailKnown, r);
    assert Accounted(s) <= hole;
  }

  lemma {:induction false} NewTallied(id: nat, s: Slot, tailKnown: bool, r: Slot, hole: nat, sent: nat, most: nat,
                                      limit: nat)
    requires SlotOk(id, s) && Shaped(s) && s.complete.None? && s.fragTotal.Some? && Tallied(s, sent, most, limit)
    requires s.askedWhole ==> tailKnown
    requires r.fragments == s.fragments && |r.asked| == |s.asked| && limit >= 1
    requires forall k :: 0 <= k < |s.asked| ==> r.asked[k] == (s.asked[k] || k in Missing(s, tailKnown))
    requires hole in Missing(s, tailKnown) && hole < |s.asked| && !s.asked[hole]
    requires r.complete.None? && r.fragTotal == s.fragTotal && r.askedWhole == s.askedWhole
    requires r.nackRounds == (if s.nackRounds == 0 then 1 else s.nackRounds)
    ensures Tallied(r, sent + 1, most, limit)
  {
    NewsGrow(id, s, tailKnown, r, hole);
  }

  lemma {:induction false} NewHolesTallied(id: nat, s: Slot, tailKnown: bool, missing: seq<nat>, now: nat,
                                           sent: nat, most: nat, limit: nat)
    requires SlotOk(id, s) && Shaped(s) && s.complete.None? && s.fragTotal.Some? && Tallied(s, sent, most, limit)
    requires missing == Missing(s, tailKnown) && (forall i :: 0 <= i < |missing| ==> missing[i] < |s.asked|)
    requires (s.askedWhole ==> tailKnown) && limit >= 1
    ensures var (r, ask) := RequestHoles(s, missing, false, now);
            Tallied(r, sent + (if ask.Some? then 1 else 0), most, limit)
  {
    var (r, ask) := RequestHoles(s, missing, false, now);
    if ask.Some? {
      assert ask.value[0] in ask.value;
      assert ask.value[0] in missing && !s.asked[ask.value[0]];
      NewTallied(id, s, tailKnown, r, ask.value[0], sent, most, limit);
    } else {
      assert Accounted(r) == Accounted(s);
    }
  }

  lemma {:induction false} SlotTallied(id: nat, s: Slot, tailKnown: bool, due: bool, limit: nat, now: nat,
                                       sent: nat, most: nat)
    requires SlotOk(id, s) && Shaped(s) && s.complete.None? && Tallied(s, sent, most, limit) && limit >= 1
    requires (WasUnknown(s) ==> tailKnown) && (due ==> s.lastNack.Some?)
    ensures var (r, ask) := RequestSlot(s, tailKnown, due, limit, now);
            Tallied(r, sent + (if ask.Some? then 1 else 0), most, limit)
  {
    if s.fragTotal.Some? {
      var missing := Missing(s, tailKnown);
      PartsAskIs(s, tailKnown, due, limit, now);
      if missing == [] {
        assert Accounted(s.(missingSince := None)) == Accounted(s);
      } else if due && s.nackRounds < limit {
        RetryTallied(s, missing, now, sent, most, limit);
      } else {
        NewHolesTallied(id, s, tailKnown, missing, now, sent, most, limit);
      }
    }
  }

  lemma {:induction false} RequestTallied(w: Window, id: nat, now: nat, sent: nat, most: nat)
    requires Base(w) && WellShaped(w) && id in w.slots && w.config.maxNackRounds >= 1
    requires Tallied(w.slots[id], sent, most, w.config.maxNackRounds)
    requires WasUnknown(w.slots[id]) ==> TailKnown(w, id)
    ensures var (r, ask) := Request(w, id, now);
            Tallied(r, sent + (if ask.Some? then 1 else 0), most, w.config.maxNackRounds)
  {
    var s := w.slots[id];
    assert SlotOk(id, s) && Shaped(s);
    if s.complete.None? {
      SlotTallied(id, s, TailKnown(w, id), RetryDue(w, s, now), w.config.maxNackRounds, now, sent, most);
    }
  }

  // ---- a frame of unknown size was passed over ----

  /** A frame tracked before its size was known was passed over by a later one, in a gap that may be filled. */
  predicate PassedOver(w: Window, id: nat) {
    id in w.slots && WasUnknown(w.slots[id]) ==> TailKnown(w, id) && CanBeUnknown(w.config, id)
  }

  lemma {:induction false} NotePassed(w: Window, f: nat, isKey: bool, now: nat, id: nat)
    requires WellShaped(w) && PassedOver(w, id)
    ensures PassedOver(NoteNewFrame(w, f, isKey, now).0, id)
  {
    var w0 := NoteAsked(w, now);
    if w0.highest.Some? && f > w0.highest.value {
      var w1 := MarkTails(w0, now).(highest := Some(f));
      assert PassedOver(w1, id);
    }
  }

  lemma {:induction false} AcceptPassed(w: Window, h: Header, payload: Bytes, id: nat)
    requires WellShaped(w) && PassedOver(w, id)
    requires var slot := SlotFor(w, h.frameId, h.fragTotal); slot.complete.None? && h.fragId < |slot.fragments|
    ensures PassedOver(Accept(w, SlotFor(w, h.frameId, h.fragTotal), h, payload).0, id)
  {
  }

  lemma {:induction false} AtRequestsPassed(w: Window, e: Event, id: nat)
    requires Inv(w) && WellShaped(w) && PassedOver(w, id)
    ensures PassedOver(AtRequests(w, e), id)
  {
    if e.Fragment? && Accepted(w, e.h, e.now) {
      var (f, isKey) := (e.h.frameId, IsKeyframe(e.h));
      NoteKeepsShape(w, f, isKey, e.now);
      NoteBase(w, f, isKey, e.now);
      NotePassed(w, f, isKey, e.now, id);
      var w1 := NoteNewFrame(w, f, isKey, e.now).0;
      SlotForOpen(w1, f, e.h.fragTotal);
      AcceptPassed(w1, e.h, e.payload, id);
      ReleaseKeeps(Stored(w, e.h, e.payload, e.now).0);
    } else if e.Tick? && Expired(w, e.now) != {} {
      GiveUpInv(w, Greatest(Expired(w, e.now)), e.now);
    }
  }

  lemma {:induction false} StepHighest(w: Window, e: Event)
    requires Inv(w) && WellShaped(w)
    ensures Step(w, e).0.highest == AtRequests(w, e).highest
  {
    if e.Fragment? {
      if Accepted(w, e.h, e.now) {
        var w1 := Stored(w, e.h, e.payload, e.now).0;
        StoredBase(w, e.h, e.payload, e.now);
        ReleaseStage(w1);
        RequestStage(Release(w1).0, e.now);
        SettleStages(w1, e.now);
        EnforceInv(RequestMissing(Release(w1).0, e.now).0, e.now);
      } else {
        InsertRefused(w, e.h, e.payload, e.now);
      }
    }
  }

  lemma {:induction false} RequestUnknown(w: Window, id: nat, now: nat)
    requires WellShaped(w) && id in w.slots && WasUnknown(Request(w, id, now).0)
    ensures WasUnknown(w.slots[id])
  {
  }

  lemma {:induction false} StepPassed(w: Window, e: Event, id: nat)
    requires Inv(w) && WellShaped(w) && PassedOver(w, id)
    ensures PassedOver(Step(w, e).0, id)
  {
    AtRequestsPassed(w, e, id);
    AtRequestsConfig(w, e);
    StepHighest(w, e);
    if id in Step(w, e).0.slots {
      AfterRequests(w, e, id);
      if (e.Tick? || (e.Fragment? && Accepted(w, e.h, e.now))) && WasUnknown(Step(w, e).0.slots[id]) {
        RequestUnknown(AtRequests(w, e), id, e.now);
      }
    }
  }

  /** Every fragment of frame `id` in the run says the frame has at most `n`. */
  predicate AtMost(es: seq<Event>, id: nat, n: nat) {
    forall e :: e in es && e.Fragment? && e.h.frameId == id ==> e.h.fragTotal <= n
  }

  lemma {:induction false} NoteTotals(w: Window, f: nat, isKey: bool, now: nat, id: nat)
    requires WellShaped(w) && id in NoteNewFrame(w, f, isKey, now).0.slots
    ensures NoteNewFrame(w, f, isKey, now).0.slots[id].fragTotal == Before(w, id).fragTotal
  {
    var w0 := NoteAsked(w, now);
    if w0.highest.Some? && f > w0.highest.value {
      var w1 := MarkTails(w0, now).(highest := Some(f));
      assert Before(w1, id).fragTotal == Before(w, id).fragTotal;
    }
  }

  lemma {:induction false} AcceptTotals(w: Window, h: Header, payload: Bytes, id: nat)
    requires WellShaped(w)
    requires var slot := SlotFor(w, h.frameId, h.fragTotal); slot.complete.None? && h.fragId < |slot.fragments|
    requires id in Accept(w, SlotFor(w, h.frameId, h.fragTotal), h, payload).0.slots
    ensures var r := Accept(w, SlotFor(w, h.frameId, h.fragTotal), h, payload).0.slots[id];
            r.fragTotal == Before(w, id).fragTotal || (id == h.frameId && r.fragTotal == Some(h.fragTotal))
  {
  }

  lemma {:induction false} StoredTotals(w: Window, h: Header, payload: Bytes, now: nat, id: nat)
    requires Base(w) && WellShaped(w) && Accepted(w, h, now) && id in Stored(w, h, payload, now).0.slots
    ensures var r := Stored(w, h, payload, now).0.slots[id];
            r.fragTotal == Before(w, id).fragTotal || (id == h.frameId && r.fragTotal == Some(h.fragTotal))
  {
    NoteKeepsShape(w, h.frameId, IsKeyframe(h), now);
    NoteBase(w, h.frameId, IsKeyframe(h), now);
    var w1 := NoteNewFrame(w, h.frameId, IsKeyframe(h), now).0;
    SlotForOpen(w1, h.frameId, h.fragTotal);
    AcceptTotals(w1, h, payload, id);
    if id in w1.slots { NoteTotals(w, h.frameId, IsKeyframe(h), now, id); }
  }

  predicate TotalWithin(s: Slot, n: nat) {
    s.fragTotal.Some? ==> s.fragTotal.value <= n
  }

  lemma {:induction false} AtRequestsTotals(w: Window, e: Event, id: nat, n: nat)
    requires Inv(w) && WellShaped(w) && id in AtRequests(w, e).slots && AtMost([e], id, n)
    requires TotalWithin(Before(w, id), n)
    ensures TotalWithin(AtRequests(w, e).slots[id], n)
  {
    assert e in [e];
    if e.Fragment? && Accepted(w, e.h, e.now) {
      ReleaseKeeps(Stored(w, e.h, e.payload, e.now).0);
      StoredTotals(w, e.h, e.payload, e.now, id);
    } else if e.Tick? && Expired(w, e.now) != {} {
      GiveUpInv(w, Greatest(Expired(w, e.now)), e.now);
    }
  }

  // ---- the tally over a run ----

  /** Between calls the slot of frame `id`, if there is one, tallies with the requests sent for it. */
  predicate TalliedIn(w: Window, id: nat, sent: nat, n: nat)
    requires w.config.maxNackRounds >= 1
  {
    if id in w.slots
    then Tallied(w.slots[id], sent, MostRequests(w.config, id, n), w.config.maxNackRounds) && TotalWithin(w.slots[id], n)
    else sent == 0
  }

  lemma {:induction false} TalliedBound(w: Window, id: nat, sent: nat, n: nat)
    requires Base(w) && w.config.maxNackRounds >= 1 && PassedOver(w, id) && TalliedIn(w, id, sent, n)
    ensures sent <= MostRequests(w.config, id, n)
  {
    if id in w.slots {
      assert SlotOk(id, w.slots[id]);
      TallyBounds(w.config, id, n, w.slots[id], sent);
    }
  }

  lemma {:induction false} ReachesPass(w: Window, e: Event, id: nat, sent: nat, n: nat)
    requires Inv(w) && WellShaped(w) && AtMost([e], id, n) && w.config.maxNackRounds >= 1
    requires AtRequests(w, e).config == w.config && PassedOver(w, id) && TalliedIn(w, id, sent, n)
    ensures id in AtRequests(w, e).slots ==> TalliedIn(AtRequests(w, e), id, sent, n)
  {
    var w1 := AtRequests(w, e);
    if id in w1.slots {
      TalliedBound(w, id, sent, n);
      AtRequestsTotals(w, e, id, n);
      AtRequestsCarries(w, e, id);
      assert Shaped(w1.slots[id]);
      CarryTallied(id, Before(w, id), w1.slots[id], sent, MostRequests(w.config, id, n), w.config.maxNackRounds);
    }
  }

  lemma {:induction false} PassTallied(w: Window, id: nat, now: nat, sent: nat, n: nat)
    requires Base(w) && WellShaped(w) && id in w.slots && w.config.maxNackRounds >= 1
    requires PassedOver(w, id) && TalliedIn(w, id, sent, n)
    ensures var (r, ask) := Request(w, id, now); var after := sent + if ask.Some? then 1 else 0;
            && Tallied(r, after, MostRequests(w.config, id, n), w.config.maxNackRounds) && TotalWithin(r, n)
            && after <= MostRequests(w.config, id, n)
  {
    var (r, ask) := Request(w, id, now);
    RequestTallied(w, id, now, sent, MostRequests(w.config, id, n));
    RequestOneOk(w, id, now);
    if WasUnknown(r) { RequestUnknown(w, id, now); }
    TallyBounds(w.config, id, n, r, sent + if ask.Some? then 1 else 0);
  }

  lemma {:induction false} StepTallied(w: Window, e: Event, id: nat, sent: nat, n: nat)
    requires Inv(w) && WellShaped(w) && AtMost([e], id, n) && w.config.maxNackRounds >= 1
    requires AtRequests(w, e).config == w.config == Step(w, e).0.config
    requires PassedOver(w, id) && TalliedIn(w, id, sent, n)
    ensures sent + |Asks(w, e, id)| <= MostRequests(w.config, id, n)
    ensures id in Step(w, e).0.slots ==> TalliedIn(Step(w, e).0, id, sent + |Asks(w, e, id)|, n)
  {
    var w1 := AtRequests(w, e);
    StepAsks(w, e, id);
    ReachesPass(w, e, id, sent, n);
    AtRequestsPassed(w, e, id);
    if id in w1.slots && (e.Tick? || (e.Fragment? && Accepted(w, e.h, e.now))) {
      PassTallied(w1, id, e.now, sent, n);
    } else {
      TalliedBound(w, id, sent, n);
    }
    if id in Step(w, e).0.slots { AfterRequests(w, e, id); }
  }

  lemma {:induction false} RunTallied(c: Config, es: seq<Event>, id: nat, n: nat)
    requires c.maxNackRounds >= 1 && AtMost(es, id, n)
    ensures var w := Run(c, es).0;
            && w.config == c && PassedOver(w, id) && |SentFor(c, es, id)| <= MostRequests(c, id, n)
            && (id in w.slots ==> TalliedIn(w, id, |SentFor(c, es, id)|, n))
  {
    if es != [] {
      var before := es[..|es| - 1];
      var e := es[|es| - 1];
      RunTallied(c, before, id, n);
      var w := Run(c, before).0;
      AtRequestsConfig(w, e);
      StepPassed(w, e, id);
      StepTallied(w, e, id, if id in w.slots then |SentFor(c, before, id)| else 0, n);
    }
  }

  /**
   * Request economy: over every run, in one stay of a frame in the window, the whole frame is asked
   * for at most `maxNackRounds` times and so is each of its fragments. The requests together can be
   * more than that, because naming something new takes no round; `MostRequests` bounds them.
   */
  lemma {:induction false} NackEconomy(c: Config, es: seq<Event>, id: nat, k: nat, n: nat)
    requires c.maxNackRounds >= 1 && AtMost(es, id, n)
    ensures Wholes(SentFor(c, es, id)) <= c.maxNackRounds
    ensures Namings(SentFor(c, es, id), k) <= c.maxNackRounds
    ensures |SentFor(c, es, id)| <= MostRequests(c, id, n)
  {
    RunCounted(c, es, id);
    RunTallied(c, es, id, n);
  }
}
