/** The calls a receiver makes on the window, as functions: one step each of a run. */
module WindowSteps {
  import opened Prelude
  import opened Wire
  import opened Fragments
  import opened WindowModel

  // ---- the shape invariant each stage keeps ----

  lemma {:induction false} ReleaseKeeps(w: Window)
    ensures var w' := Release(w).0;
            && w'.slots.Keys <= w.slots.Keys
            && (forall id :: id in w'.slots ==> w'.slots[id] == w.slots[id])
            && w' == w.(slots := w'.slots, nextId := w'.nextId, needKey := w'.needKey, keyAsked := w'.keyAsked)
    decreases w.slots.Keys
  {
    if NextReady(w) {
      TakeNextShrinks(w);
      ReleaseKeeps(TakeNext(w));
    } else if CompleteKeys(w) != {} {
      var id := Least(CompleteKeys(w));
      TakeKeyShrinks(w, id);
      ReleaseKeeps(TakeKey(w, id));
    }
  }

  lemma {:induction false} GiveUpKeeps(w: Window, id: nat, now: nat)
    ensures var w' := GiveUpThrough(w, id, now).0;
            && w'.config == w.config
            && (forall k :: k in w'.slots ==> k in w.slots && k > id && w'.slots[k] == w.slots[k])
            && (id in w.slots ==> w'.slots.Keys < w.slots.Keys)
  {
    var lost := |LostBelow(w, id + 1)|;
    var dropped := DropBelow(w, id + 1);
    var broken := BreakChain(dropped.(lost := dropped.lost + lost), id + 1, now);
    ReleaseKeeps(broken);
    if id in w.slots {
      assert id in w.slots.Keys && id !in GiveUpThrough(w, id, now).0.slots.Keys;
    }
  }

  lemma {:induction false} RequestOneKeepsShape(w: Window, id: nat, now: nat)
    requires WellShaped(w) && id in w.slots
    ensures Shaped(Request(w, id, now).0)
  {
    assert Shaped(w.slots[id]);
  }

  lemma {:induction false} RequestKeepsShape(w: Window, now: nat)
    requires WellShaped(w)
    ensures WellShaped(RequestMissing(w, now).0)
  {
    forall id | id in w.slots ensures Shaped(Request(w, id, now).0) {
      RequestOneKeepsShape(w, id, now);
    }
  }

  lemma {:induction false} MarkTailsKeepsShape(w: Window, now: nat)
    requires WellShaped(w)
    ensures WellShaped(MarkTails(w, now))
  {
    forall id | id in w.slots ensures Shaped(MarkTail(w.slots[id], now)) {
    }
  }

  lemma {:induction false} FillGapKeepsShape(w: Window, highest: nat, frameId: nat, now: nat)
    requires WellShaped(w)
    ensures WellShaped(FillGap(w, highest, frameId, now))
  {
    forall id | id in FillGap(w, highest, frameId, now).slots
      ensures Shaped(FillGap(w, highest, frameId, now).slots[id])
    {
    }
  }

  lemma {:induction false} NoteKeepsShape(w: Window, frameId: nat, isKey: bool, now: nat)
    requires WellShaped(w)
    ensures WellShaped(NoteNewFrame(w, frameId, isKey, now).0)
  {
    var w0 := NoteAsked(w, now);
    if w0.highest.Some? && frameId > w0.highest.value {
      MarkTailsKeepsShape(w0, now);
      var w1 := MarkTails(w0, now).(highest := Some(frameId));
      FillGapKeepsShape(w1, w0.highest.value, frameId, now);
    }
  }

  // ---- the calls ----

  /** Gives up the oldest frame until the window is within its bound. */
  ghost function EnforceCapacity(w: Window, now: nat): (Window, Output)
    decreases w.slots.Keys
  {
    if |w.slots| <= w.config.maxHeld then (w, NOTHING)
    else
      var oldest := Least(w.slots.Keys);
      GiveUpKeeps(w, oldest, now);
      var (w1, given) := GiveUpThrough(w, oldest, now);
      var (w2, more) := EnforceCapacity(w1, now);
      (w2, Plus(given, more))
  }

  lemma {:induction false} EnforceNoArrivals(w: Window, now: nat)
    ensures EnforceCapacity(w, now).1.arrived == [] && EnforceCapacity(w, now).1.nacks == []
    decreases w.slots.Keys
  {
    if |w.slots| > w.config.maxHeld {
      var oldest := Least(w.slots.Keys);
      GiveUpKeeps(w, oldest, now);
      EnforceNoArrivals(GiveUpThrough(w, oldest, now).0, now);
    }
  }

  /** The slot a fragment of `frameId` goes to, sized if this is its first fragment. */
  function SlotFor(w: Window, frameId: nat, total: u16): (s: Slot)
    requires WellShaped(w)
    ensures Shaped(s) && s.fragTotal.Some?
    ensures s.complete.None? ==> |s.fragments| == s.fragTotal.value
  {
    var s := if frameId in w.slots then w.slots[frameId] else UNKNOWN;
    if s.fragTotal.None? then Sized(s, total) else s
  }

  /** The window with the fragment in its slot, assembled if it was the last one missing. */
  function Accept(w: Window, slot: Slot, h: Header, payload: Bytes): (r: (Window, seq<ArrivedFrame>))
    requires WellShaped(w) && Shaped(slot) && slot.fragTotal.Some? && slot.complete.None? && h.fragId < |slot.fragments|
    ensures WellShaped(r.0)
  {
    var stored := Store(slot, h, payload);
    if Full(stored) then
      (w.(slots := w.slots[h.frameId := Finish(stored, h.frameId)],
          recovered := w.recovered + if NeededResend(stored) then 1 else 0),
       [ArrivalOf(stored, h.frameId)])
    else
      (w.(slots := w.slots[h.frameId := stored]), [])
  }

  /** What follows an accepted fragment: hand out, ask, and keep within bounds. */
  ghost function Settle(w: Window, now: nat): (Window, Output)
    requires WellShaped(w)
  {
    ReleaseKeeps(w);
    var (w1, frames) := Release(w);
    assert WellShaped(w1);
    var (w2, nacks) := RequestMissing(w1, now);
    var (w3, forced) := EnforceCapacity(w2, now);
    (w3, Plus(Output(frames, [], nacks, 0, false), forced))
  }

  /** A fragment for an older frame than the decoder still needs. */
  predicate Stale(w: Window, frameId: nat) {
    w.nextId.Some? && frameId < w.nextId.value
  }

  /** Whether a valid fragment adds something to the window: consistent and not a duplicate. */
  predicate Fits(w: Window, h: Header)
    requires WellShaped(w) && h.fragId < h.fragTotal
  {
    var slot := SlotFor(w, h.frameId, h.fragTotal);
    slot.fragTotal.value == h.fragTotal && slot.complete.None? && slot.fragments[h.fragId].None?
  }

  /** Puts a valid fragment in its slot and lets the window settle, or refuses it. */
  ghost function Place(w: Window, h: Header, payload: Bytes, now: nat): (Window, Output, Result<()>)
    requires WellShaped(w) && h.fragId < h.fragTotal
  {
    var slot := SlotFor(w, h.frameId, h.fragTotal);
    if Fits(w, h) then
      var (stored, arrived) := Accept(w, slot, h, payload);
      var (w', settled) := Settle(stored, now);
      (w', settled.(arrived := arrived), Ok(()))
    else
      (w, NOTHING,
       if slot.fragTotal.value != h.fragTotal
       then Err(FragmentTotalMismatch(h.frameId, slot.fragTotal.value, h.fragTotal))
       else Ok(()))
  }

  /** What a call put out, with the loss noted before it. */
  function WithLoss(loss: Loss, out: Output): Output {
    out.(lost := loss.lost + out.lost, needKey := loss.needKey || out.needKey)
  }

  /** Takes in a fragment that is neither invalid nor stale. */
  ghost function TakeIn(w: Window, h: Header, payload: Bytes, now: nat): (Window, Output, Result<()>)
    requires WellShaped(w) && h.fragId < h.fragTotal
  {
    NoteKeepsShape(w, h.frameId, IsKeyframe(h), now);
    var (w1, loss) := NoteNewFrame(w, h.frameId, IsKeyframe(h), now);
    var (w2, out, r) := Place(w1, h, payload, now);
    (w2, WithLoss(loss, out), r)
  }

  ghost function Insert(w: Window, h: Header, payload: Bytes, now: nat): (Window, Output, Result<()>)
    requires WellShaped(w)
  {
    if Validate(h).Err? then (w, NOTHING, Validate(h))
    else if Stale(w, h.frameId) then (w, NOTHING, Ok(()))
    else TakeIn(w, h, payload, now)
  }

  /** Whether `Insert` stores the fragment. */
  predicate Accepted(w: Window, h: Header, now: nat)
    requires WellShaped(w)
  {
    && Validate(h).Ok? && !Stale(w, h.frameId)
    && (NoteKeepsShape(w, h.frameId, IsKeyframe(h), now);
        Fits(NoteNewFrame(w, h.frameId, IsKeyframe(h), now).0, h))
  }

  /** The window once an accepted fragment is stored, before anything is handed out. */
  function Stored(w: Window, h: Header, payload: Bytes, now: nat): (r: (Window, seq<ArrivedFrame>))
    requires WellShaped(w) && Accepted(w, h, now)
    ensures WellShaped(r.0)
  {
    NoteKeepsShape(w, h.frameId, IsKeyframe(h), now);
    var w1 := NoteNewFrame(w, h.frameId, IsKeyframe(h), now).0;
    Accept(w1, SlotFor(w1, h.frameId, h.fragTotal), h, payload)
  }

  /** The frames whose recovery deadline has passed. */
  function Expired(w: Window, now: nat): set<nat>
    requires WellShaped(w)
  {
    set id | id in w.slots && Recoverable(w, id) && IsMissing(w.slots[id], TailKnown(w, id))
             && w.slots[id].missingSince.Some?
             && now >= w.slots[id].missingSince.value + GiveUpAfter(w.config, w.rtt)
  }

  ghost function GiveUpExpired(w: Window, now: nat): (Window, Output)
    requires WellShaped(w)
  {
    if Expired(w, now) == {} then (w, NOTHING)
    else GiveUpThrough(w, Greatest(Expired(w, now)), now)
  }

  predicate KeyRetryDue(w: Window, now: nat) {
    w.needKey && w.slots != map[] && !KeyInFlight(w)
    && w.keyAsked.Some? && now >= w.keyAsked.value + w.config.keyframeRetry
  }

  ghost function Poll(w: Window, now: nat): (Window, Output)
    requires WellShaped(w)
  {
    var (w1, given) := GiveUpExpired(w, now);
    assert WellShaped(w1) by { if Expired(w, now) != {} { GiveUpKeeps(w, Greatest(Expired(w, now)), now); } }
    var (w2, nacks) := RequestMissing(w1, now);
    var again := KeyRetryDue(w2, now);
    (if again then w2.(keyAsked := Some(now)) else w2,
     given.(nacks := nacks, needKey := given.needKey || again))
  }

  function SetRtt(w: Window, rtt: nat): Window {
    w.(rtt := Min(rtt, MAX_RTT))
  }

  /** A slot whose recovery is on the clock. */
  predicate Timed(w: Window, id: nat)
    requires WellShaped(w) && id in w.slots
  {
    w.slots[id].missingSince.Some? && Recoverable(w, id) && IsMissing(w.slots[id], TailKnown(w, id))
  }

  predicate WillRetry(w: Window, id: nat)
    requires id in w.slots
  {
    WorthAsking(w, w.slots[id]) && w.slots[id].nackRounds < w.config.maxNackRounds && w.slots[id].lastNack.Some?
  }

  function GiveUpAt(w: Window, id: nat): nat
    requires WellShaped(w) && id in w.slots && Timed(w, id)
  {
    w.slots[id].missingSince.value + GiveUpAfter(w.config, w.rtt)
  }

  function RetryAt(w: Window, id: nat): nat
    requires id in w.slots && WillRetry(w, id)
  {
    w.slots[id].lastNack.value + RetryInterval(w.config, w.rtt)
  }

  /** When the frames among `ids` are given up. */
  function GiveUpTimes(w: Window, ids: set<nat>): set<nat>
    requires WellShaped(w) && ids <= w.slots.Keys
  {
    set id | id in ids && Timed(w, id) :: GiveUpAt(w, id)
  }

  /** When the frames among `ids` are asked for again. */
  function RetryTimes(w: Window, ids: set<nat>): set<nat>
    requires WellShaped(w) && ids <= w.slots.Keys
  {
    set id | id in ids && Timed(w, id) && WillRetry(w, id) :: RetryAt(w, id)
  }

  /** When a keyframe is asked for again. */
  function KeyTimes(w: Window): set<nat> {
    if w.needKey && w.slots != map[] && !KeyInFlight(w) && w.keyAsked.Some?
    then {w.keyAsked.value + w.config.keyframeRetry} else {}
  }

  /** Every instant at which some timer of the window runs out. */
  function Deadlines(w: Window): set<nat>
    requires WellShaped(w)
  {
    GiveUpTimes(w, w.slots.Keys) + RetryTimes(w, w.slots.Keys) + KeyTimes(w)
  }

  ghost function NextDeadline(w: Window): Option<nat>
    requires WellShaped(w)
  {
    if Deadlines(w) == {} then None else Some(Least(Deadlines(w)))
  }

  /** The lowest id that can still be handed out after the caller skipped ahead. */
  ghost function SkipFloor(slots: map<nat, Slot>, highest: nat): nat {
    if slots == map[] then highest + 1 else (LeastKey(slots); Min(Least(slots.Keys), highest + 1))
  }

  lemma {:induction false} LeastKey(slots: map<nat, Slot>)
    requires slots != map[]
    ensures slots.Keys != {}
  {
    var k :| k in slots;
    assert k in slots.Keys;
  }

  ghost function RequireKeyframe(w: Window, now: nat): Window {
    if w.highest.None? then w.(needKey := true, keyAsked := Some(now))
    else
      var kept := map id | id in w.slots && (id > w.highest.value || w.slots[id].isKey) :: w.slots[id];
      var w1 := w.(slots := kept, needKey := true, keyAsked := Some(now));
      w1.(nextId := RaiseNext(w1, SkipFloor(kept, w.highest.value)))
  }

  // ---- runs ----

  datatype Event =
    | Fragment(h: Header, payload: Bytes, now: nat)
    | Tick(now: nat)
    | Rtt(rtt: nat)
    | SkipAhead(now: nat)

  ghost function Step(w: Window, e: Event): (Window, Output)
    requires WellShaped(w)
  {
    match e
    case Fragment(h, payload, now) => var (w', out, _) := Insert(w, h, payload, now); (w', out)
    case Tick(now) => Poll(w, now)
    case Rtt(rtt) => (SetRtt(w, rtt), NOTHING)
    case SkipAhead(now) => (RequireKeyframe(w, now), NOTHING)
  }
}
