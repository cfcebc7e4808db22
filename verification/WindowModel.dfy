/**
 * The receive window as a value, and what each operation does to it.
 *
 * Every operation is a function from the window before to the window after and what the call
 * handed out. `ReceiveWindow` holds the same state in mutable fields, runs the loops, and is proved
 * to compute these functions. Iteration over the slots in id order is written here as a map
 * comprehension (each slot on its own), not as a loop.
 */
module WindowModel {
  import opened Prelude
  import opened Wire
  import opened Fragments

  /** Longest round trip the timers take into account, in nanoseconds (500 ms). */
  const MAX_RTT: nat := 500_000_000

  datatype Config = Config(
    maxHeld: nat,
    maxGap: nat,
    maxNackRounds: nat,
    retrySlack: nat,
    giveUpSlack: nat,
    keyframeRetry: nat)

  function RetryInterval(c: Config, rtt: nat): nat {
    var r := Min(rtt, MAX_RTT);
    r + r / 2 + c.retrySlack
  }

  function GiveUpAfter(c: Config, rtt: nat): nat {
    Min(rtt, MAX_RTT) * 2 + c.giveUpSlack
  }

  datatype Nack = Nack(frameId: nat, fragIds: seq<nat>)

  datatype ArrivedFrame = ArrivedFrame(frameId: nat, pts: nat, bytes: nat, recovered: bool, isKey: bool)

  /** What one call added to the caller's output. */
  datatype Output = Output(
    frames: seq<Frame>,
    arrived: seq<ArrivedFrame>,
    nacks: seq<Nack>,
    lost: nat,
    needKey: bool)

  const NOTHING: Output := Output([], [], [], 0, false)

  /** Output accumulates: lists are appended, losses added, a keyframe request sticks. */
  function Plus(a: Output, b: Output): Output {
    Output(a.frames + b.frames, a.arrived + b.arrived, a.nacks + b.nacks, a.lost + b.lost, a.needKey || b.needKey)
  }

  datatype Slot = Slot(
    fragTotal: Option<u16>,
    fragments: Table,
    received: nat,
    highestFrag: nat,
    isKey: bool,
    pts: nat,
    complete: Option<Frame>,
    missingSince: Option<nat>,
    asked: seq<bool>,
    askedWhole: bool,
    nackRounds: nat,
    lastNack: Option<nat>)

  const UNKNOWN: Slot := Slot(None, [], 0, 0, false, 0, None, None, [], false, 0, None)

  datatype Window = Window(
    config: Config,
    slots: map<nat, Slot>,
    nextId: Option<nat>,
    needKey: bool,
    highest: Option<nat>,
    keyAsked: Option<nat>,
    rtt: nat,
    lost: nat,
    recovered: nat)

  function New(c: Config): Window {
    Window(c, map[], None, true, None, None, 20_000_000, 0, 0)
  }

  /** A slot's tables have the size its fragment total says, so that indexing them is safe. */
  predicate Shaped(s: Slot) {
    match s.fragTotal
    case None => s.complete.None? && s.received == 0
    case Some(total) =>
      s.complete.None? ==>
        |s.fragments| == |s.asked| == total && (s.received > 0 ==> s.highestFrag < total)
  }

  predicate WellShaped(w: Window) {
    forall id :: id in w.slots ==> Shaped(w.slots[id])
  }

  function Sized(s: Slot, total: u16): (r: Slot)
    ensures s.complete.None? && s.received == 0 ==> Shaped(r)
  {
    s.(fragTotal := Some(total), fragments := EmptyTable(total), asked := seq(total, i => false))
  }

  /** The empty positions of `t` below `limit`, in increasing order. */
  function Holes(t: Table, limit: nat): (r: seq<nat>)
    requires limit <= |t|
    ensures forall k :: k in r <==> 0 <= k < limit && t[k].None?
    ensures forall i, j :: 0 <= i < j < |r| ==> r[i] < r[j]
  {
    if limit == 0 then [] else
    var before := Holes(t, limit - 1);
    assert forall i :: 0 <= i < |before| ==> before[i] in before;
    before + (if t[limit - 1].None? then [limit - 1] else [])
  }

  /** How far into the frame fragments are known to be missing rather than still on their way. */
  function KnownUpTo(s: Slot, tailKnown: bool): nat
    requires s.fragTotal.Some?
  {
    if tailKnown then s.fragTotal.value else if s.received == 0 then 0 else s.highestFrag + 1
  }

  function Missing(s: Slot, tailKnown: bool): seq<nat>
    requires Shaped(s)
  {
    if s.fragTotal.None? || s.complete.Some? then []
    else Holes(s.fragments, KnownUpTo(s, tailKnown))
  }

  predicate IsMissing(s: Slot, tailKnown: bool)
    requires Shaped(s)
  {
    s.complete.None? && (s.fragTotal.None? || Missing(s, tailKnown) != [])
  }

  /** Whether a later frame has been seen, so that the whole of `id` is accounted for. */
  predicate TailKnown(w: Window, id: nat) {
    id < GetOr(w.highest, 0)
  }

  /** No keyframe after `id` is on its way to supersede it. */
  predicate NoLaterKey(w: Window, id: nat) {
    forall k :: k in w.slots && k > id ==> !w.slots[k].isKey
  }

  predicate Recoverable(w: Window, id: nat)
    requires id in w.slots
  {
    w.slots[id].complete.None? && NoLaterKey(w, id)
  }

  predicate WorthAsking(w: Window, s: Slot) {
    !w.needKey || s.isKey || s.fragTotal.None?
  }

  predicate KeyInFlight(w: Window) {
    exists k :: k in w.slots && w.slots[k].isKey
  }

  // ---- dropping and giving up ----

  function Below(w: Window, id: nat): set<nat> {
    set k | k in w.slots && k < id
  }

  /** The incomplete frames below `id`: what dropping them loses. */
  function LostBelow(w: Window, id: nat): set<nat> {
    set k | k in w.slots && k < id && w.slots[k].complete.None?
  }

  function DropBelow(w: Window, id: nat): Window {
    w.(slots := map k | k in w.slots && k >= id :: w.slots[k])
  }

  /** `nextId` raised to at least `floor`. */
  function RaiseNext(w: Window, floor: nat): Option<nat> {
    Some(if w.nextId.Some? then Max(w.nextId.value, floor) else floor)
  }

  function AsksOnBreak(w: Window): bool {
    !w.needKey || w.keyAsked.None?
  }

  function BreakChain(w: Window, floor: nat, now: nat): Window {
    w.(nextId := RaiseNext(w, floor),
       keyAsked := if AsksOnBreak(w) then Some(now) else w.keyAsked,
       needKey := true)
  }

  // ---- handing frames out ----

  predicate CompleteKey(s: Slot) {
    s.isKey && s.complete.Some? && s.complete.value.isKey
  }

  function CompleteKeys(w: Window): set<nat> {
    set k | k in w.slots && CompleteKey(w.slots[k])
  }

  predicate NextReady(w: Window) {
    !w.needKey && w.nextId.Some? && w.nextId.value in w.slots && w.slots[w.nextId.value].complete.Some?
  }

  /** Hands out the frame the intact chain waits for. */
  function TakeNext(w: Window): Window
    requires NextReady(w)
  {
    w.(slots := w.slots - {w.nextId.value}, nextId := Some(w.nextId.value + 1))
  }

  /** Hands out keyframe `id`, dropping everything before it. */
  function TakeKey(w: Window, id: nat): Window {
    w.(slots := map k | k in w.slots && k > id :: w.slots[k],
       nextId := Some(id + 1), needKey := false, keyAsked := None)
  }

  lemma {:induction false} TakeNextShrinks(w: Window)
    requires NextReady(w)
    ensures TakeNext(w).slots.Keys < w.slots.Keys
  {
    assert w.nextId.value in w.slots.Keys && w.nextId.value !in TakeNext(w).slots.Keys;
  }

  lemma {:induction false} TakeKeyShrinks(w: Window, id: nat)
    requires id in w.slots
    ensures TakeKey(w, id).slots.Keys < w.slots.Keys
  {
    assert id in w.slots.Keys && id !in TakeKey(w, id).slots.Keys;
  }

  /** Everything the decoder can take now, and the window without it. */
  ghost function Release(w: Window): (Window, seq<Frame>)
    decreases w.slots.Keys
  {
    if NextReady(w) then
      TakeNextShrinks(w);
      var (w', rest) := Release(TakeNext(w));
      (w', [w.slots[w.nextId.value].complete.value] + rest)
    else if CompleteKeys(w) != {} then
      var id := Least(CompleteKeys(w));
      TakeKeyShrinks(w, id);
      var (w', rest) := Release(TakeKey(w, id));
      (w', [w.slots[id].complete.value] + rest)
    else
      (w, [])
  }

  /** Abandons every frame up to and including `id`. */
  ghost function GiveUpThrough(w: Window, id: nat, now: nat): (Window, Output) {
    var lost := |LostBelow(w, id + 1)|;
    var dropped := DropBelow(w, id + 1);
    var broken := BreakChain(dropped.(lost := dropped.lost + lost), id + 1, now);
    var (w', frames) := Release(broken);
    (w', Output(frames, [], [], lost, AsksOnBreak(w)))
  }

  // ---- asking for fragments ----

  function AskWhole(s: Slot, now: nat): Slot {
    s.(askedWhole := true, nackRounds := s.nackRounds + 1, lastNack := Some(now),
       missingSince := Some(GetOr(s.missingSince, now)))
  }

  /** The indices among `missing` not asked for in an earlier request. */
  function NotYetAsked(s: Slot, missing: seq<nat>): (r: seq<nat>)
    requires forall i :: 0 <= i < |missing| ==> missing[i] < |s.asked|
    ensures forall k :: k in r <==> k in missing && !s.asked[k]
  {
    if missing == [] then []
    else
      assert missing == [missing[0]] + missing[1..];
      (if s.asked[missing[0]] then [] else [missing[0]]) + NotYetAsked(s, missing[1..])
  }

  function MarkAsked(asked: seq<bool>, ids: seq<nat>): (r: seq<bool>)
    ensures |r| == |asked|
    ensures forall i :: 0 <= i < |r| ==> r[i] == (asked[i] || i in ids)
  {
    seq(|asked|, i requires 0 <= i < |asked| => asked[i] || i in ids)
  }

  predicate RetryDue(w: Window, s: Slot, now: nat) {
    s.lastNack.Some? && now >= s.lastNack.value + RetryInterval(w.config, w.rtt)
  }

  predicate MayRetry(w: Window, s: Slot, now: nat) {
    RetryDue(w, s, now) && s.nackRounds < w.config.maxNackRounds
  }

  /** Asks for the holes `missing` of a sized slot: all of them on a retry, else the new ones. */
  function RequestHoles(s: Slot, missing: seq<nat>, retry: bool, now: nat): (Slot, Option<seq<nat>>)
    requires forall i :: 0 <= i < |missing| ==> missing[i] < |s.asked|
  {
    var since := Some(GetOr(s.missingSince, now));
    var rounds := if retry then s.nackRounds + 1 else s.nackRounds;
    var ask := if retry then missing else NotYetAsked(s, missing);
    if ask == [] then (s.(missingSince := since, nackRounds := rounds), None)
    else
      (s.(missingSince := since, nackRounds := if rounds == 0 then 1 else rounds,
          asked := MarkAsked(s.asked, ask), lastNack := Some(now)),
       Some(ask))
  }

  /** Asks for what a slot worth asking for lacks; `due` says a retry is, and `limit` bounds its rounds. */
  function RequestSlot(s: Slot, tailKnown: bool, due: bool, limit: nat, now: nat): (Slot, Option<seq<nat>>)
    requires Shaped(s)
  {
    if s.fragTotal.None? then
      if (!s.askedWhole || due) && s.nackRounds < limit then (AskWhole(s, now), Some([])) else (s, None)
    else
      var missing := Missing(s, tailKnown);
      assert forall i :: 0 <= i < |missing| ==> missing[i] in missing;
      if missing == [] then (s.(missingSince := None), None)
      else RequestHoles(s, missing, due && s.nackRounds < limit, now)
  }

  /** What the request pass does to one slot, and the request it sends, if any. */
  function Request(w: Window, id: nat, now: nat): (Slot, Option<seq<nat>>)
    requires WellShaped(w) && id in w.slots
  {
    var s := w.slots[id];
    if !(Recoverable(w, id) && WorthAsking(w, s)) then (s, None)
    else RequestSlot(s, TailKnown(w, id), RetryDue(w, s, now), w.config.maxNackRounds, now)
  }

  /** The requests for the slots in `ids`, lowest frame first. */
  ghost function RequestsFor(w: Window, ids: set<nat>, now: nat): seq<Nack>
    requires WellShaped(w) && ids <= w.slots.Keys
  {
    if ids == {} then []
    else
      var id := Least(ids);
      var ask := Request(w, id, now).1;
      (if ask.Some? then [Nack(id, ask.value)] else []) + RequestsFor(w, ids - {id}, now)
  }

  /** One pass over all slots; the requests come out in frame order. */
  ghost function RequestMissing(w: Window, now: nat): (Window, seq<Nack>)
    requires WellShaped(w)
  {
    (w.(slots := map id | id in w.slots :: Request(w, id, now).0), RequestsFor(w, w.slots.Keys, now))
  }

  // ---- taking in a fragment ----

  function NoteAsked(w: Window, now: nat): Window {
    if w.keyAsked.None? then w.(keyAsked := Some(now)) else w
  }

  /** A held slot once a later frame proves its tail was sent. */
  function MarkTail(s: Slot, now: nat): Slot
    requires Shaped(s)
  {
    if s.missingSince.None? && IsMissing(s, true) then s.(missingSince := Some(now)) else s
  }

  function MarkTails(w: Window, now: nat): Window
    requires WellShaped(w)
  {
    w.(slots := map id | id in w.slots :: MarkTail(w.slots[id], now))
  }

  /** Not yet handed out or given up. */
  predicate NotStale(w: Window, id: nat) {
    id >= GetOr(w.nextId, 0)
  }

  /** The ids a jump from `highest` to `frameId` skipped and the decoder still needs. */
  function Gap(w: Window, highest: nat, frameId: nat): set<nat> {
    set id: nat | highest < id < frameId && NotStale(w, id)
  }

  function GapSlot(slots: map<nat, Slot>, id: nat, now: nat): Slot {
    var s := if id in slots then slots[id] else UNKNOWN;
    s.(missingSince := Some(GetOr(s.missingSince, now)))
  }

  function Filled(slots: map<nat, Slot>, gap: set<nat>, now: nat): map<nat, Slot> {
    map id | id in slots.Keys + gap :: if id in gap then GapSlot(slots, id, now) else slots[id]
  }

  /** Tracks every skipped frame as missing since `now`. */
  function FillGap(w: Window, highest: nat, frameId: nat, now: nat): Window {
    w.(slots := Filled(w.slots, Gap(w, highest, frameId), now))
  }

  /** Frames given up on, and whether a keyframe is asked for on their account. */
  datatype Loss = Loss(lost: nat, needKey: bool)

  const NO_LOSS: Loss := Loss(0, false)

  /** The jump to `frameId` was too far to recover frame by frame. */
  function Discontinuity(w: Window, frameId: nat, isKey: bool, now: nat): (Window, Loss) {
    var lost := |LostBelow(w, frameId)|;
    var dropped := DropBelow(w, frameId);
    if isKey then (dropped, NO_LOSS)
    else
      (BreakChain(dropped.(lost := dropped.lost + lost), frameId, now),
       Loss(lost, AsksOnBreak(w)))
  }

  /** Records that `frameId` exists, and what the jump past the highest frame seen proves missing. */
  function NoteNewFrame(w: Window, frameId: nat, isKey: bool, now: nat): (Window, Loss)
    requires WellShaped(w)
  {
    var w0 := NoteAsked(w, now);
    if w0.highest.None? then (w0.(highest := Some(frameId)), NO_LOSS)
    else if frameId <= w0.highest.value then (w0, NO_LOSS)
    else
      var highest := w0.highest.value;
      var w1 := MarkTails(w0, now).(highest := Some(frameId));
      if frameId - highest - 1 == 0 then (w1, NO_LOSS)
      else if frameId - highest - 1 > w.config.maxGap then Discontinuity(w1, frameId, isKey, now)
      else (FillGap(w1, highest, frameId, now), NO_LOSS)
  }

  /** The slot with one more fragment in it. */
  function Store(s: Slot, h: Header, payload: Bytes): Slot
    requires s.complete.None? && h.fragId < |s.fragments|
  {
    s.(isKey := s.isKey || IsKeyframe(h),
       pts := if h.fragId == 0 || s.received == 0 then h.pts else s.pts,
       fragments := s.fragments[h.fragId := Some(payload)],
       received := s.received + 1,
       highestFrag := if s.received == 0 then h.fragId else Max(s.highestFrag, h.fragId))
  }

  predicate Full(s: Slot) {
    s.fragTotal == Some(s.received)
  }

  function FrameOf(s: Slot, id: nat): Frame {
    Frame(id, s.isKey, s.pts, Assemble(s.fragments))
  }

  function NeededResend(s: Slot): bool {
    s.nackRounds > 0 || s.askedWhole
  }

  /** A full slot turns into its assembled frame. */
  function Finish(s: Slot, id: nat): Slot {
    s.(fragments := [], complete := Some(FrameOf(s, id)), missingSince := None)
  }

  function ArrivalOf(s: Slot, id: nat): ArrivedFrame {
    ArrivedFrame(id, s.pts, |Assemble(s.fragments)|, NeededResend(s), s.isKey)
  }
}
