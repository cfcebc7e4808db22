/**
 * Two receivers, one stream: when consecutive frames arrive whole, one after another, from a keyframe
 * on, the receive window and the older reassembly buffer hand out the same frames.
 */
module Agreement {
  import opened Prelude
  import opened Wire
  import opened Fragments
  import opened Sender
  import opened WindowModel
  import opened WindowSteps
  import opened WindowInvariant
  import opened WindowRuns
  import opened EndToEnd
  import opened Recovery
  import Buffer = Reassembly

  /** One frame's fragments, in the order they arrive and the times they do. */
  datatype Delivery = Delivery(id: nat, order: seq<nat>, times: seq<nat>)

  /** Every index below `n`, each once. */
  predicate IsPermutation(order: seq<nat>, n: nat) {
    && |order| == n
    && (forall i :: 0 <= i < n ==> order[i] < n)
    && forall i, j :: 0 <= i < j < n ==> order[i] != order[j]
  }

  predicate Whole(sent: SentLog, d: Delivery)
    requires GoodLog(sent)
  {
    d.id in sent && IsPermutation(d.order, Total(sent, d.id)) && |d.times| == |d.order|
  }

  /** Consecutive frames, each delivered whole, from a keyframe on. */
  predicate Lossless(sent: SentLog, ds: seq<Delivery>)
    requires GoodLog(sent)
  {
    && (forall m :: 0 <= m < |ds| ==> Whole(sent, ds[m]))
    && (forall m :: 0 <= m < |ds| ==> ds[m].id == ds[0].id + m)
    && (ds != [] ==> sent[ds[0].id].frame.isKey)
  }

  function Originals(sent: SentLog, ds: seq<Delivery>): seq<Frame>
    requires forall m :: 0 <= m < |ds| ==> ds[m].id in sent
  {
    seq(|ds|, m requires 0 <= m < |ds| => Original(sent[ds[m].id].frame))
  }

  // ---- permutations ----

  function Upto(n: nat): (r: set<nat>)
    ensures |r| == n && forall v: nat :: v in r <==> v < n
  {
    if n == 0 then {} else Upto(n - 1) + {n - 1}
  }

  lemma {:induction false} Distinct(order: seq<nat>, values: set<nat>)
    requires forall i :: 0 <= i < |order| ==> order[i] in values
    requires forall i, j :: 0 <= i < j < |order| ==> order[i] != order[j]
    ensures |order| <= |values|
  {
    if order != [] {
      var n := |order| - 1;
      assert forall i :: 0 <= i < n ==> order[..n][i] == order[i];
      Distinct(order[..n], values - {order[n]});
    }
  }

  /** A permutation reaches every index. */
  lemma {:induction false} Reaches(order: seq<nat>, n: nat, x: nat)
    requires IsPermutation(order, n) && x < n
    ensures x in order
  {
    if x !in order { Distinct(order, Upto(n) - {x}); }
  }

  /** Before its last entry it has not. */
  lemma {:induction false} NotYet(order: seq<nat>, n: nat, k: nat)
    requires IsPermutation(order, n) && k < n
    ensures order[k] !in order[..k]
  {
  }

  /** A table holding the first `k` of a permutation is full exactly when that is all of it. */
  lemma {:induction false} FullWhenDone(t: Table, order: seq<nat>, n: nat, k: nat)
    requires IsPermutation(order, n) && k <= n == |t|
    requires forall i: nat :: i < n ==> (t[i].Some? <==> i in order[..k])
    ensures Arrived(t) == n <==> k == n
  {
    ArrivedAll(t);
    if k == n {
      assert order[..k] == order;
      forall i: nat | i < n
        ensures t[i].Some?
      {
        Reaches(order, n, i);
      }
    } else {
      NotYet(order, n, k);
      assert t[order[k]].None?;
    }
  }

  lemma {:induction false} TakeOne(order: seq<nat>, k: nat)
    requires k < |order|
    ensures order[..k + 1] == order[..k] + [order[k]]
  {
  }

  // ---- the window ----

  /** Nothing held, and frame `id` is what the decoder can take next. */
  predicate Ready(w: Window, id: nat, isKey: bool) {
    && w.slots == map[] && w.config.maxHeld >= 1
    && (w.highest.None? || w.highest.value + 1 == id)
    && Awaited(w, id, isKey)
  }

  predicate HasPart(s: Slot, order: seq<nat>, k: nat, n: nat) {
    && s.fragTotal == Some(n) && |s.fragments| == n && k <= |order|
    && forall i: nat :: i < n ==> (s.fragments[i].Some? <==> i in order[..k])
  }

  /** The first `k` fragments of a delivery are in, and nothing else is held. */
  predicate Holding(sent: SentLog, w: Window, d: Delivery, k: nat)
    requires GoodLog(sent) && d.id in sent
  {
    && w.slots.Keys == {d.id} && w.config.maxHeld >= 1
    && w.slots[d.id].complete.None?
    && HasPart(w.slots[d.id], d.order, k, Total(sent, d.id))
    && w.slots[d.id].isKey == sent[d.id].frame.isKey
    && w.highest == Some(d.id)
    && Awaited(w, d.id, sent[d.id].frame.isKey)
  }

  predicate Midway(sent: SentLog, w: Window, d: Delivery, k: nat)
    requires GoodLog(sent) && d.id in sent
  {
    if k == 0 then Ready(w, d.id, sent[d.id].frame.isKey) else Holding(sent, w, d, k)
  }

  function Piece(sent: SentLog, d: Delivery, k: nat): Header
    requires GoodLog(sent) && Whole(sent, d) && k < |d.order|
  {
    PieceHeader(sent, d.id, d.order[k])
  }

  function Payload(sent: SentLog, d: Delivery, k: nat): Bytes
    requires GoodLog(sent) && Whole(sent, d) && k < |d.order|
  {
    Parts(sent[d.id])[d.order[k]]
  }

  lemma {:induction false} PieceIsValid(sent: SentLog, d: Delivery, k: nat)
    requires GoodLog(sent) && Whole(sent, d) && k < |d.order|
    ensures var h := Piece(sent, d, k);
            && Validate(h).Ok? && Genuine(sent, h, Payload(sent, d, k)) && IsKeyframe(h) == sent[d.id].frame.isKey
            && h.frameId == d.id && h.fragId == d.order[k] && h.fragTotal == Total(sent, d.id) == |d.order|
  {
    DatagramParses(sent[d.id].frame, sent[d.id].chunk, d.order[k]);
  }

  /** What is stored by one more fragment: a window with just that slot. */
  predicate StoredOnly(w1: Window, w: Window, d: Delivery, r: Slot) {
    && Base(w1) && WellShaped(w1)
    && w1.slots == map[d.id := if Full(r) then Finish(r, d.id) else r]
    && w1.nextId == w.nextId && w1.needKey == w.needKey && w1.config == w.config && w1.highest == Some(d.id)
  }

  lemma {:induction false} StorePart(s: Slot, h: Header, payload: Bytes, order: seq<nat>, k: nat, n: nat)
    requires IsPermutation(order, n) && k < n && s.complete.None? && HasPart(s, order, k, n) && h.fragId == order[k]
    ensures HasPart(Store(s, h, payload), order, k + 1, n)
  {
    TakeOne(order, k);
  }

  /** The first fragment of a frame opens its slot. */
  lemma {:induction false} NoteReady(w: Window, h: Header, now: nat)
    requires Inv(w) && WellShaped(w) && Ready(w, h.frameId, IsKeyframe(h))
    ensures !Stale(w, h.frameId)
    ensures NoteNewFrame(w, h.frameId, IsKeyframe(h), now) == (NoteAsked(w, now).(highest := Some(h.frameId)), NO_LOSS)
  {
    if w.highest.Some? {
      assert MarkTails(NoteAsked(w, now), now).slots == map[];
    }
  }

  lemma {:induction false} FirstStored(sent: SentLog, w: Window, d: Delivery, now: nat) returns (r: Slot)
    requires Inv(w) && WellShaped(w)
    requires GoodLog(sent) && Whole(sent, d) && Ready(w, d.id, sent[d.id].frame.isKey) && |d.order| > 0
    ensures var h := Piece(sent, d, 0);
            && Accepted(w, h, now)
            && StoredOnly(Stored(w, h, Payload(sent, d, 0), now).0, w, d, r)
            && HasPart(r, d.order, 1, Total(sent, d.id)) && r.complete.None? && r.isKey == sent[d.id].frame.isKey
            && r.received == Arrived(r.fragments)
  {
    var h := Piece(sent, d, 0);
    var n := Total(sent, d.id);
    PieceIsValid(sent, d, 0);
    NoteReady(w, h, now);
    var w1 := NoteAsked(w, now).(highest := Some(d.id));
    NoteBase(w, d.id, IsKeyframe(h), now);
    var s := Sized(UNKNOWN, n);
    SizedOpen(UNKNOWN, n);
    assert SlotFor(w1, d.id, n) == s;
    assert HasPart(s, d.order, 0, n);
    StorePart(s, h, Payload(sent, d, 0), d.order, 0, n);
    StoreOpen(s, h, Payload(sent, d, 0));
    r := Store(s, h, Payload(sent, d, 0));
    StoredBase(w, h, Payload(sent, d, 0), now);
  }

  lemma {:induction false} HeldLacks(sent: SentLog, w: Window, d: Delivery, k: nat)
    requires Inv(w) && WellShaped(w)
    requires GoodLog(sent) && Whole(sent, d) && Holding(sent, w, d, k) && 0 < k < |d.order|
    ensures Lacking(w, Piece(sent, d, k))
  {
    PieceIsValid(sent, d, k);
    NotYet(d.order, |d.order|, k);
    assert d.id in w.slots.Keys;
  }

  lemma {:induction false} NextPart(sent: SentLog, w: Window, d: Delivery, k: nat)
    requires Inv(w) && WellShaped(w)
    requires GoodLog(sent) && Whole(sent, d) && Holding(sent, w, d, k) && 0 < k < |d.order|
    requires Lacking(w, Piece(sent, d, k))
    ensures var r := With(w, Piece(sent, d, k), Payload(sent, d, k));
            && HasPart(r, d.order, k + 1, Total(sent, d.id)) && r.complete.None? && r.isKey == sent[d.id].frame.isKey
            && r.received == Arrived(r.fragments)
  {
    var h := Piece(sent, d, k);
    PieceIsValid(sent, d, k);
    LackingAccepted(w, h, Payload(sent, d, k), 0);
    StoreOpen(SlotFor(NoteAsked(w, 0), h.frameId, h.fragTotal), h, Payload(sent, d, k));
    StorePart(w.slots[d.id], h, Payload(sent, d, k), d.order, k, Total(sent, d.id));
  }

  lemma {:induction false} NextStored(sent: SentLog, w: Window, d: Delivery, k: nat, now: nat) returns (r: Slot)
    requires Inv(w) && WellShaped(w)
    requires GoodLog(sent) && Whole(sent, d) && Holding(sent, w, d, k) && 0 < k < |d.order|
    ensures var h := Piece(sent, d, k);
            && Accepted(w, h, now)
            && StoredOnly(Stored(w, h, Payload(sent, d, k), now).0, w, d, r)
            && HasPart(r, d.order, k + 1, Total(sent, d.id)) && r.complete.None? && r.isKey == sent[d.id].frame.isKey
            && r.received == Arrived(r.fragments)
  {
    var h := Piece(sent, d, k);
    PieceIsValid(sent, d, k);
    HeldLacks(sent, w, d, k);
    LackingStored(w, h, Payload(sent, d, k), now);
    NextPart(sent, w, d, k);
    r := With(w, h, Payload(sent, d, k));
    OnlySlot(w.slots, d.id, if Full(r) then Finish(r, d.id) else r);
  }

  lemma {:induction false} OnlySlot(slots: map<nat, Slot>, id: nat, s: Slot)
    requires slots.Keys == {id}
    ensures slots[id := s] == map[id := s]
  {
  }

  /** The one frame held is complete and awaited: it goes out, and nothing stays. */
  lemma {:induction false} ReleaseOnly(w: Window, id: nat)
    requires Base(w) && w.slots.Keys == {id} && w.slots[id].complete.Some? && Awaited(w, id, w.slots[id].isKey)
    ensures var (w', frames) := Release(w);
            && frames == [w.slots[id].complete.value]
            && w'.slots == map[] && w'.nextId == Some(id + 1) && !w'.needKey
            && w'.highest == w.highest && w'.config == w.config
  {
    assert id in w.slots.Keys;
    assert SlotOk(id, w.slots[id]);
    var next := if NextReady(w) then TakeNext(w) else TakeKey(w, id);
    if !NextReady(w) {
      assert CompleteKeys(w) == {id};
      LeastIs(id, {id});
    }
    assert next.slots.Keys == {};
    assert next.slots == map[];
    assert CompleteKeys(next) == {};
  }

  lemma {:induction false} SettleEmpty(w: Window, now: nat)
    requires WellShaped(w) && w.slots == map[]
    ensures RequestMissing(w, now) == (w, []) && EnforceCapacity(w, now).0 == w
  {
    assert RequestMissing(w, now).0.slots == map[];
  }

  /** The last fragment: the frame goes out. */
  lemma {:induction false} Completed(w1: Window, w: Window, d: Delivery, r: Slot, now: nat)
    requires StoredOnly(w1, w, d, r) && Full(r) && Awaited(w, d.id, r.isKey) && w.config.maxHeld >= 1
    ensures var (w', out) := Settle(w1, now);
            && out.frames == [FrameOf(r, d.id)] && WellShaped(w')
            && Inv(w') && w'.slots == map[] && w'.nextId == Some(d.id + 1) && !w'.needKey
            && w'.highest == Some(d.id) && w'.config == w.config
  {
    assert w1.slots.Keys == {d.id};
    ReleaseOnly(w1, d.id);
    SettleInv(w1, now);
    SettleStages(w1, now);
    SettleEmpty(Release(w1).0, now);
    BaseIsShaped(Settle(w1, now).0);
  }

  /** Any other fragment: the slot stays, one fragment fuller. */
  lemma {:induction false} Kept(w1: Window, w: Window, d: Delivery, r: Slot, now: nat)
    requires StoredOnly(w1, w, d, r) && !Full(r) && r.complete.None? && w.config.maxHeld >= 1
    ensures var (w', out) := Settle(w1, now);
            && out.frames == [] && Inv(w') && WellShaped(w') && w'.slots.Keys == {d.id} && SameFrame(r, w'.slots[d.id])
            && w'.nextId == w.nextId && w'.needKey == w.needKey && w'.highest == Some(d.id) && w'.config == w.config
  {
    assert w1.slots.Keys == {d.id};
    assert w1.slots[d.id] == r;
    assert CompleteKeys(w1) == {};
    SettleIdle(w1, now);
    BaseIsShaped(Settle(w1, now).0);
  }

  lemma {:induction false} InsertIsSettle(w: Window, h: Header, payload: Bytes, now: nat)
    requires Inv(w) && WellShaped(w) && Accepted(w, h, now)
    ensures var (w', out, _) := Insert(w, h, payload, now); var s := Settle(Stored(w, h, payload, now).0, now);
            w' == s.0 && out.frames == s.1.frames
  {
  }

  lemma {:induction false} MidwayAwaits(sent: SentLog, w: Window, d: Delivery, k: nat)
    requires GoodLog(sent) && Whole(sent, d) && Midway(sent, w, d, k)
    ensures w.config.maxHeld >= 1 && Awaited(w, d.id, sent[d.id].frame.isKey)
  {
  }

  lemma {:induction false} PieceStored(sent: SentLog, w: Window, d: Delivery, k: nat, now: nat) returns (r: Slot)
    requires Inv(w) && WellShaped(w)
    requires GoodLog(sent) && Whole(sent, d) && Midway(sent, w, d, k) && k < |d.order|
    ensures var h := Piece(sent, d, k);
            && Accepted(w, h, now)
            && StoredOnly(Stored(w, h, Payload(sent, d, k), now).0, w, d, r)
            && HasPart(r, d.order, k + 1, Total(sent, d.id)) && r.complete.None? && r.isKey == sent[d.id].frame.isKey
            && (Full(r) <==> k + 1 == |d.order|)
  {
    if k == 0 { r := FirstStored(sent, w, d, now); } else { r := NextStored(sent, w, d, k, now); }
    FullWhenDone(r.fragments, d.order, |d.order|, k + 1);
  }

  lemma {:induction false} PieceKept(sent: SentLog, w: Window, d: Delivery, k: nat, now: nat)
    requires Inv(w) && WellShaped(w)
    requires GoodLog(sent) && Whole(sent, d) && Midway(sent, w, d, k) && k + 1 < |d.order|
    ensures Accepted(w, Piece(sent, d, k), now)
    ensures var (w', out) := Settle(Stored(w, Piece(sent, d, k), Payload(sent, d, k), now).0, now);
            out.frames == [] && Holding(sent, w', d, k + 1)
  {
    MidwayAwaits(sent, w, d, k);
    var r := PieceStored(sent, w, d, k, now);
    var w1 := Stored(w, Piece(sent, d, k), Payload(sent, d, k), now).0;
    KeptHolds(sent, w1, w, Settle(w1, now).0, d, k + 1, r, now);
  }

  lemma {:induction false} KeptHolds(sent: SentLog, w1: Window, w: Window, w': Window, d: Delivery, k: nat, r: Slot,
                                     now: nat)
    requires GoodLog(sent) && d.id in sent && w.config.maxHeld >= 1 && Awaited(w, d.id, sent[d.id].frame.isKey)
    requires StoredOnly(w1, w, d, r) && !Full(r)
    requires HasPart(r, d.order, k, Total(sent, d.id)) && r.complete.None? && r.isKey == sent[d.id].frame.isKey
    requires w' == Settle(w1, now).0
    ensures Settle(w1, now).1.frames == [] && Holding(sent, w', d, k)
  {
    Kept(w1, w, d, r, now);
    NowHolding(sent, w, w', d, k, r);
  }

  lemma {:induction false} NowHolding(sent: SentLog, w: Window, w': Window, d: Delivery, k: nat, r: Slot)
    requires GoodLog(sent) && d.id in sent && w.config.maxHeld >= 1 && Awaited(w, d.id, sent[d.id].frame.isKey)
    requires HasPart(r, d.order, k, Total(sent, d.id)) && r.complete.None? && r.isKey == sent[d.id].frame.isKey
    requires w'.slots.Keys == {d.id} && SameFrame(r, w'.slots[d.id])
    requires w'.nextId == w.nextId && w'.needKey == w.needKey && w'.highest == Some(d.id) && w'.config == w.config
    ensures Holding(sent, w', d, k)
  {
  }

  lemma {:induction false} PieceCompletes(sent: SentLog, w: Window, d: Delivery, k: nat, now: nat)
    requires Inv(w) && WellShaped(w)
    requires GoodLog(sent) && Whole(sent, d) && Midway(sent, w, d, k) && k + 1 == |d.order|
    ensures Accepted(w, Piece(sent, d, k), now)
    ensures var (w', out) := Settle(Stored(w, Piece(sent, d, k), Payload(sent, d, k), now).0, now);
            |out.frames| == 1 && out.frames[0].id == d.id && Ready(w', d.id + 1, false)
  {
    MidwayAwaits(sent, w, d, k);
    var r := PieceStored(sent, w, d, k, now);
    Completed(Stored(w, Piece(sent, d, k), Payload(sent, d, k), now).0, w, d, r, now);
  }

  // ---- the buffer ----

  predicate BufferReady(b: Buffer.Buffer, id: nat) {
    && Buffer.BufferOk(b) && b.pending == map[]
    && (b.watermark.None? || b.watermark.value + 1 == id)
  }

  predicate BufferHolding(sent: SentLog, b: Buffer.Buffer, d: Delivery, k: nat)
    requires GoodLog(sent) && d.id in sent
  {
    && Buffer.BufferOk(b) && b.pending.Keys == {d.id}
    && (b.watermark.None? || b.watermark.value + 1 == d.id)
    && var p := b.pending[d.id]; var n := Total(sent, d.id);
       && p.total == n == |p.fragments| && k <= |d.order|
       && forall i: nat :: i < n ==> (p.fragments[i].Some? <==> i in d.order[..k])
  }

  predicate BufferMidway(sent: SentLog, b: Buffer.Buffer, d: Delivery, k: nat)
    requires GoodLog(sent) && d.id in sent
  {
    if k == 0 then BufferReady(b, d.id) else BufferHolding(sent, b, d, k)
  }

  function PendingOf(sent: SentLog, b: Buffer.Buffer, d: Delivery, k: nat): Buffer.Pending
    requires GoodLog(sent) && Whole(sent, d) && BufferMidway(sent, b, d, k) && k < |d.order|
  {
    if k == 0 then Buffer.Open(Piece(sent, d, 0)) else (assert d.id in b.pending.Keys; b.pending[d.id])
  }

  lemma {:induction false} BufferTakes(sent: SentLog, b: Buffer.Buffer, d: Delivery, k: nat)
    requires GoodLog(sent) && Whole(sent, d) && BufferMidway(sent, b, d, k) && k < |d.order|
    ensures var h := Piece(sent, d, k); var p := PendingOf(sent, b, d, k);
            && Validate(h).Ok? && !Buffer.IsStale(b, h.frameId) && !Buffer.NeedsRoom(b, h.frameId)
            && Buffer.Inserted(b, h, Payload(sent, d, k)) == Buffer.Admit(b, h, Payload(sent, d, k))
            && p.total == |p.fragments| == Total(sent, d.id) == h.fragTotal && p.fragments[d.order[k]].None?
            && p == (if (h.frameId as nat) in b.pending then b.pending[h.frameId] else Buffer.Open(h))
            && (Buffer.PendingOk(p) || p == Buffer.Open(h))
            && forall i: nat :: i < p.total ==> (p.fragments[i].Some? <==> i in d.order[..k])
  {
    PieceIsValid(sent, d, k);
    NotYet(d.order, |d.order|, k);
    if k > 0 { assert d.id in b.pending.Keys; }
  }

  /** One more fragment of a delivery, into the buffer. */
  lemma {:induction false} BufferArrives(sent: SentLog, b: Buffer.Buffer, d: Delivery, k: nat)
    requires GoodLog(sent) && Whole(sent, d) && BufferMidway(sent, b, d, k) && k < |d.order|
    ensures var (b', r) := Buffer.Inserted(b, Piece(sent, d, k), Payload(sent, d, k));
            && r.Ok?
            && (if k + 1 < |d.order| then r.value.None? && BufferHolding(sent, b', d, k + 1)
                else r.value.Some? && r.value.value.id == d.id && BufferReady(b', d.id + 1))
  {
    var h := Piece(sent, d, k);
    var payload := Payload(sent, d, k);
    BufferTakes(sent, b, d, k);
    PieceIsValid(sent, d, k);
    var p := PendingOf(sent, b, d, k);
    var q := Buffer.Put(p, h, payload);
    Buffer.PutOk(p, h, payload);
    TakeOne(d.order, k);
    FullWhenDone(q.fragments, d.order, |d.order|, k + 1);
    Buffer.InsertOk(b, h, payload);
    AdmitIs(b, h, payload, p);
  }

  lemma {:induction false} AdmitIs(b: Buffer.Buffer, h: Header, payload: Bytes, p: Buffer.Pending)
    requires Buffer.BufferOk(b) && h.fragId < h.fragTotal == |p.fragments| == p.total
    requires p == (if (h.frameId as nat) in b.pending then b.pending[h.frameId] else Buffer.Open(h))
    requires p.fragments[h.fragId].None? && b.pending.Keys <= {h.frameId as nat}
    ensures var (b', r) := Buffer.Admit(b, h, payload); var q := Buffer.Put(p, h, payload);
            && r.Ok? && b'.capacity == b.capacity
            && (if q.received == q.total
                then r.value.Some? && r.value.value.id == h.frameId && b'.pending == map[]
                     && b'.watermark == Buffer.Retired(b, h.frameId).watermark
                else r.value.None? && b'.pending == map[h.frameId as nat := q] && b'.watermark == b.watermark)
  {
    var id: nat := h.frameId;
    assert (b.pending - {id}).Keys == {};
  }

  // ---- whole streams ----

  /** The stream up to the first `k` fragments of delivery `m`. */
  function Events(sent: SentLog, ds: seq<Delivery>, m: nat, k: nat): (es: seq<Event>)
    requires GoodLog(sent) && Lossless(sent, ds) && m <= |ds|
    requires if m < |ds| then k <= |ds[m].order| else k == 0
    decreases m, k
  {
    if k > 0 then
      Events(sent, ds, m, k - 1) + [EventAt(sent, ds, m, k - 1)]
    else if m > 0 then Events(sent, ds, m - 1, |ds[m - 1].order|)
    else []
  }

  function Calls(sent: SentLog, ds: seq<Delivery>, m: nat, k: nat): seq<Buffer.Call>
    requires GoodLog(sent) && Lossless(sent, ds) && m <= |ds|
    requires if m < |ds| then k <= |ds[m].order| else k == 0
    decreases m, k
  {
    if k > 0 then
      Calls(sent, ds, m, k - 1) + [CallAt(sent, ds, m, k - 1)]
    else if m > 0 then Calls(sent, ds, m - 1, |ds[m - 1].order|)
    else []
  }

  /** How many frames are out once `k` fragments of delivery `m` are in. */
  function Done(ds: seq<Delivery>, m: nat, k: nat): (n: nat)
    requires m <= |ds| && (if m < |ds| then k <= |ds[m].order| else k == 0)
    ensures n <= |ds|
  {
    if m < |ds| && k > 0 && k == |ds[m].order| then m + 1 else m
  }

  lemma {:induction false} HasFragments(sent: SentLog, ds: seq<Delivery>, m: nat)
    requires GoodLog(sent) && Lossless(sent, ds) && m < |ds|
    ensures |ds[m].order| > 0 && ds[m].id in sent
  {
    assert Whole(sent, ds[m]);
  }

  /** The window at a point of the stream: between deliveries, or midway through one. */
  predicate WindowThere(sent: SentLog, ds: seq<Delivery>, w: Window, m: nat, k: nat)
    requires GoodLog(sent) && Lossless(sent, ds) && m <= |ds|
    requires if m < |ds| then k <= |ds[m].order| else k == 0
  {
    && Faithful(sent, w)
    && (m < |ds| && k < |ds[m].order| ==> (HasFragments(sent, ds, m); Midway(sent, w, ds[m], k)))
    && (m < |ds| && k == |ds[m].order| && m + 1 < |ds| ==>
          (HasFragments(sent, ds, m + 1); Ready(w, ds[m + 1].id, sent[ds[m + 1].id].frame.isKey)))
  }

  lemma {:induction false} NewIsReady(sent: SentLog, ds: seq<Delivery>, c: Config)
    requires GoodLog(sent) && Lossless(sent, ds) && c.maxHeld >= 1
    ensures WindowThere(sent, ds, New(c), 0, 0)
  {
    NewInv(c);
    if ds != [] { HasFragments(sent, ds, 0); }
  }

  lemma {:induction false} OriginalsGrow(sent: SentLog, ds: seq<Delivery>, n: nat)
    requires GoodLog(sent) && Lossless(sent, ds) && n < |ds|
    ensures forall m :: 0 <= m < |ds| ==> ds[m].id in sent
    ensures Originals(sent, ds[..n + 1]) == Originals(sent, ds[..n]) + [Original(sent[ds[n].id].frame)]
  {
    forall m | 0 <= m < |ds| ensures ds[m].id in sent { HasFragments(sent, ds, m); }
  }

  function EventAt(sent: SentLog, ds: seq<Delivery>, m: nat, k: nat): Event
    requires GoodLog(sent) && Lossless(sent, ds) && m < |ds| && k < |ds[m].order|
  {
    Fragment(Piece(sent, ds[m], k), Payload(sent, ds[m], k), ds[m].times[k])
  }

  /** What is out after fragment `k` of delivery `m` that was not before it. */
  function NewlyOut(sent: SentLog, ds: seq<Delivery>, m: nat, k: nat): seq<Frame>
    requires m < |ds| && ds[m].id in sent
  {
    if k + 1 == |ds[m].order| then [Original(sent[ds[m].id].frame)] else []
  }

  lemma {:induction false} PieceStep(sent: SentLog, w: Window, d: Delivery, k: nat, now: nat)
    returns (w': Window, out: Output)
    requires Inv(w) && WellShaped(w)
    requires GoodLog(sent) && Whole(sent, d) && Midway(sent, w, d, k) && k < |d.order| && Faithful(sent, w)
    ensures (w', out) == Step(w, Fragment(Piece(sent, d, k), Payload(sent, d, k), now))
    ensures Faithful(sent, w')
    ensures k + 1 < |d.order| ==> Holding(sent, w', d, k + 1) && out.frames == []
    ensures k + 1 == |d.order| ==> Ready(w', d.id + 1, false) && out.frames == [Original(sent[d.id].frame)]
  {
    var h, payload := Piece(sent, d, k), Payload(sent, d, k);
    PieceIsValid(sent, d, k);
    InsertFaithful(sent, w, h, payload, now);
    if k + 1 < |d.order| { PieceKept(sent, w, d, k, now); } else { PieceCompletes(sent, w, d, k, now); }
    InsertIsSettle(w, h, payload, now);
    w', out := Insert(w, h, payload, now).0, Insert(w, h, payload, now).1;
    if k + 1 == |d.order| { assert out.frames == [out.frames[0]]; }
  }

  /** Where a delivery stands, and what is out, once its first `k` fragments are in. */
  predicate Stands(sent: SentLog, d: Delivery, k: nat, w: Window, before: seq<Frame>, out: seq<Frame>)
    requires GoodLog(sent) && d.id in sent
  {
    && Faithful(sent, w)
    && (k < |d.order| ==> Holding(sent, w, d, k) && out == before)
    && (k == |d.order| ==> Ready(w, d.id + 1, false) && out == before + [Original(sent[d.id].frame)])
  }

  lemma {:induction false} PieceRuns(sent: SentLog, c: Config, es: seq<Event>, w: Window, outs: seq<Output>,
                                     d: Delivery, j: nat, k: nat, now: nat)
    returns (w': Window, outs': seq<Output>)
    requires (w, outs) == WindowRuns.Run(c, es) && k == j + 1
    requires GoodLog(sent) && Whole(sent, d) && Midway(sent, w, d, j) && j < |d.order| && Faithful(sent, w)
    ensures (w', outs') == WindowRuns.Run(c, es + [Fragment(Piece(sent, d, j), Payload(sent, d, j), now)])
    ensures Stands(sent, d, k, w', Handed(outs), Handed(outs'))
  {
    var e := Fragment(Piece(sent, d, j), Payload(sent, d, j), now);
    var out: Output;
    w', out := PieceStep(sent, w, d, j, now);
    outs' := outs + [out];
    RunSnoc(c, es, e, es + [e], w, outs, w', out);
    assert Handed(outs) + [] == Handed(outs);
  }

  lemma {:induction false} StandsThere(sent: SentLog, ds: seq<Delivery>, w: Window, before: seq<Frame>, out: seq<Frame>,
                                       m: nat, j: nat, k: nat)
    requires GoodLog(sent) && Lossless(sent, ds) && m < |ds| && k == j + 1 <= |ds[m].order| && ds[m].id in sent
    requires Stands(sent, ds[m], k, w, before, out) && OutIs(sent, ds, before, m, j)
    ensures WindowThere(sent, ds, w, m, k) && OutIs(sent, ds, out, m, k)
  {
    NextId(sent, ds, m);
    OutStep(sent, ds, before, m, j);
    assert before + [] == before;
  }

  lemma {:induction false} NextId(sent: SentLog, ds: seq<Delivery>, m: nat)
    requires GoodLog(sent) && Lossless(sent, ds) && m < |ds|
    ensures m + 1 < |ds| ==> ds[m + 1].id == ds[m].id + 1 && |ds[m + 1].order| > 0 && ds[m + 1].id in sent
  {
    if m + 1 < |ds| { HasFragments(sent, ds, m + 1); }
  }

  lemma {:induction false} RunSnoc(c: Config, es: seq<Event>, e: Event, longer: seq<Event>,
                                   w: Window, outs: seq<Output>, w': Window, out: Output)
    requires longer == es + [e] && (w, outs) == WindowRuns.Run(c, es) && WellShaped(w) && (w', out) == Step(w, e)
    ensures (w', outs + [out]) == WindowRuns.Run(c, longer)
    ensures Handed(outs + [out]) == Handed(outs) + out.frames
  {
    assert longer[..|longer| - 1] == es && longer[|longer| - 1] == e;
    HandedStep(outs, out);
  }

  predicate Known(sent: SentLog, ds: seq<Delivery>) {
    forall n :: 0 <= n < |ds| ==> ds[n].id in sent
  }

  lemma {:induction false} LosslessKnown(sent: SentLog, ds: seq<Delivery>)
    requires GoodLog(sent) && Lossless(sent, ds)
    ensures Known(sent, ds)
  {
    forall n | 0 <= n < |ds| ensures ds[n].id in sent { HasFragments(sent, ds, n); }
  }

  /** Exactly the frames finished by this point are out. */
  predicate OutIs(sent: SentLog, ds: seq<Delivery>, out: seq<Frame>, m: nat, k: nat)
    requires m <= |ds| && (if m < |ds| then k <= |ds[m].order| else k == 0)
  {
    Known(sent, ds) && out == Originals(sent, ds[..Done(ds, m, k)])
  }

  lemma {:induction false} OutStep(sent: SentLog, ds: seq<Delivery>, out: seq<Frame>, m: nat, k: nat)
    requires GoodLog(sent) && Lossless(sent, ds) && m < |ds| && k < |ds[m].order| && OutIs(sent, ds, out, m, k)
    ensures OutIs(sent, ds, out + NewlyOut(sent, ds, m, k), m, k + 1)
  {
    OriginalsGrow(sent, ds, m);
  }

  lemma {:induction false} OutTurn(sent: SentLog, ds: seq<Delivery>, out: seq<Frame>, m: nat)
    requires GoodLog(sent) && Lossless(sent, ds) && m < |ds| && OutIs(sent, ds, out, m, |ds[m].order|)
    ensures OutIs(sent, ds, out, m + 1, 0)
  {
    HasFragments(sent, ds, m);
  }

  lemma {:induction false} WindowTurn(sent: SentLog, ds: seq<Delivery>, w: Window, m: nat)
    requires GoodLog(sent) && Lossless(sent, ds) && m < |ds| && WindowThere(sent, ds, w, m, |ds[m].order|)
    ensures WindowThere(sent, ds, w, m + 1, 0)
  {
    HasFragments(sent, ds, m);
    if m + 1 < |ds| { HasFragments(sent, ds, m + 1); }
  }

  /** The window's run up to a point of the stream: where it should be, with the right frames out. */
  ghost predicate WindowAt(sent: SentLog, ds: seq<Delivery>, c: Config, m: nat, k: nat, w: Window, outs: seq<Output>) {
    && GoodLog(sent) && Lossless(sent, ds) && m <= |ds| && (if m < |ds| then k <= |ds[m].order| else k == 0)
    && (w, outs) == WindowRuns.Run(c, Events(sent, ds, m, k))
    && WindowThere(sent, ds, w, m, k) && OutIs(sent, ds, Handed(outs), m, k)
  }

  lemma {:induction false} WindowWithin(sent: SentLog, ds: seq<Delivery>, c: Config, m: nat, k: nat,
                                        w0: Window, outs0: seq<Output>)
    returns (w: Window, outs: seq<Output>)
    requires WindowAt(sent, ds, c, m, 0, w0, outs0) && m < |ds| && k <= |ds[m].order|
    ensures WindowAt(sent, ds, c, m, k, w, outs)
  {
    if k == 0 {
      w, outs := w0, outs0;
    } else {
      var j := k - 1;
      var w1, outs1 := WindowWithin(sent, ds, c, m, j, w0, outs0);
      w, outs := WindowOneMore(sent, ds, c, m, j, k, w1, outs1);
    }
  }

  lemma {:induction false} WindowRun(sent: SentLog, ds: seq<Delivery>, c: Config, m: nat)
    returns (w: Window, outs: seq<Output>)
    requires GoodLog(sent) && Lossless(sent, ds) && c.maxHeld >= 1 && m <= |ds|
    ensures WindowAt(sent, ds, c, m, 0, w, outs)
  {
    if m == 0 {
      w, outs := WindowStart(sent, ds, c);
    } else {
      w, outs := WindowRun(sent, ds, c, m - 1);
      w, outs := WindowWithin(sent, ds, c, m - 1, |ds[m - 1].order|, w, outs);
      WindowNextFrame(sent, ds, c, m, w, outs);
    }
  }

  lemma {:induction false} WindowStart(sent: SentLog, ds: seq<Delivery>, c: Config)
    returns (w: Window, outs: seq<Output>)
    requires GoodLog(sent) && Lossless(sent, ds) && c.maxHeld >= 1
    ensures WindowAt(sent, ds, c, 0, 0, w, outs)
  {
    w, outs := New(c), [];
    LosslessKnown(sent, ds);
    NewIsReady(sent, ds, c);
    assert Events(sent, ds, 0, 0) == [];
    assert (w, outs) == WindowRuns.Run(c, []);
  }

  lemma {:induction false} EventsSnoc(sent: SentLog, ds: seq<Delivery>, m: nat, j: nat, k: nat)
    requires GoodLog(sent) && Lossless(sent, ds) && m < |ds| && k == j + 1 <= |ds[m].order|
    ensures Events(sent, ds, m, k) == Events(sent, ds, m, j) + [EventAt(sent, ds, m, j)]
  {
  }

  lemma {:induction false} EventsTurn(sent: SentLog, ds: seq<Delivery>, m: nat)
    requires GoodLog(sent) && Lossless(sent, ds) && 0 < m <= |ds|
    ensures Events(sent, ds, m, 0) == Events(sent, ds, m - 1, |ds[m - 1].order|)
    ensures Calls(sent, ds, m, 0) == Calls(sent, ds, m - 1, |ds[m - 1].order|)
  {
  }

  lemma {:induction false} WindowNextFrame(sent: SentLog, ds: seq<Delivery>, c: Config, m: nat, w: Window,
                                           outs: seq<Output>)
    requires 0 < m <= |ds| && WindowAt(sent, ds, c, m - 1, |ds[m - 1].order|, w, outs)
    ensures WindowAt(sent, ds, c, m, 0, w, outs)
  {
    EventsTurn(sent, ds, m);
    WindowTurn(sent, ds, w, m - 1);
    OutTurn(sent, ds, Handed(outs), m - 1);
  }

  lemma {:induction false} WindowOneMore(sent: SentLog, ds: seq<Delivery>, c: Config, m: nat, j: nat, k: nat,
                                         w0: Window, outs0: seq<Output>)
    returns (w: Window, outs: seq<Output>)
    requires WindowAt(sent, ds, c, m, j, w0, outs0) && m < |ds| && k == j + 1 <= |ds[m].order|
    ensures WindowAt(sent, ds, c, m, k, w, outs)
  {
    HasFragments(sent, ds, m);
    EventsSnoc(sent, ds, m, j, k);
    w, outs := PieceRuns(sent, c, Events(sent, ds, m, j), w0, outs0, ds[m], j, k, ds[m].times[j]);
    StandsThere(sent, ds, w, Handed(outs0), Handed(outs), m, j, k);
  }

  // ---- and the buffer over the stream ----

  predicate BufferThere(sent: SentLog, ds: seq<Delivery>, b: Buffer.Buffer, m: nat, k: nat)
    requires GoodLog(sent) && Lossless(sent, ds) && m <= |ds|
    requires if m < |ds| then k <= |ds[m].order| else k == 0
  {
    && Buffer.BufferOk(b) && Buffer.BufferFaithful(sent, b)
    && (m < |ds| && k < |ds[m].order| ==> (HasFragments(sent, ds, m); BufferMidway(sent, b, ds[m], k)))
    && (m < |ds| && k == |ds[m].order| && m + 1 < |ds| ==> BufferReady(b, ds[m + 1].id))
  }

  lemma {:induction false} BufferStep(sent: SentLog, ds: seq<Delivery>, capacity: nat, calls: seq<Buffer.Call>,
                                      b: Buffer.Buffer, out: seq<Frame>, m: nat, k: nat)
    returns (b': Buffer.Buffer)
    requires GoodLog(sent) && Lossless(sent, ds) && m < |ds| && k < |ds[m].order| && BufferThere(sent, ds, b, m, k)
    requires (b, out) == Buffer.Run(capacity, calls) && ds[m].id in sent
    ensures BufferThere(sent, ds, b', m, k + 1)
    ensures (b', out + NewlyOut(sent, ds, m, k)) == Buffer.Run(capacity, calls + [CallAt(sent, ds, m, k)])
  {
    HasFragments(sent, ds, m);
    var h, payload := Piece(sent, ds[m], k), Payload(sent, ds[m], k);
    PieceIsValid(sent, ds[m], k);
    Buffer.InsertFaithful(sent, b, h, payload);
    Buffer.InsertOk(b, h, payload);
    BufferArrives(sent, b, ds[m], k);
    BufferSnoc(capacity, calls, h, payload);
    b' := Buffer.Inserted(b, h, payload).0;
    assert out + [] == out;
  }

  function CallAt(sent: SentLog, ds: seq<Delivery>, m: nat, k: nat): Buffer.Call
    requires GoodLog(sent) && Lossless(sent, ds) && m < |ds| && k < |ds[m].order|
  {
    Buffer.Take(Piece(sent, ds[m], k), Payload(sent, ds[m], k))
  }

  lemma {:induction false} BufferTurn(sent: SentLog, ds: seq<Delivery>, b: Buffer.Buffer, m: nat)
    requires GoodLog(sent) && Lossless(sent, ds) && m < |ds| && BufferThere(sent, ds, b, m, |ds[m].order|)
    ensures BufferThere(sent, ds, b, m + 1, 0)
  {
    HasFragments(sent, ds, m);
    if m + 1 < |ds| { HasFragments(sent, ds, m + 1); }
  }

  lemma {:induction false} BufferSnoc(capacity: nat, calls: seq<Buffer.Call>, h: Header, payload: Bytes)
    ensures Buffer.BufferOk(Buffer.Run(capacity, calls).0)
    ensures var (b, out) := Buffer.Run(capacity, calls); var (b', r) := Buffer.Inserted(b, h, payload);
            Buffer.Run(capacity, calls + [Buffer.Take(h, payload)])
            == (b', if r.Ok? && r.value.Some? then out + [r.value.value] else out)
  {
    assert (calls + [Buffer.Take(h, payload)])[..|calls|] == calls;
  }

  ghost predicate BufferAt(sent: SentLog, ds: seq<Delivery>, capacity: nat, m: nat, k: nat,
                           b: Buffer.Buffer, out: seq<Frame>)
  {
    && GoodLog(sent) && Lossless(sent, ds) && m <= |ds| && (if m < |ds| then k <= |ds[m].order| else k == 0)
    && (b, out) == Buffer.Run(capacity, Calls(sent, ds, m, k))
    && BufferThere(sent, ds, b, m, k) && OutIs(sent, ds, out, m, k)
  }

  lemma {:induction false} BufferWithin(sent: SentLog, ds: seq<Delivery>, capacity: nat, m: nat, k: nat,
                                        b0: Buffer.Buffer, out0: seq<Frame>)
    returns (b: Buffer.Buffer, out: seq<Frame>)
    requires BufferAt(sent, ds, capacity, m, 0, b0, out0) && m < |ds| && k <= |ds[m].order|
    ensures BufferAt(sent, ds, capacity, m, k, b, out)
  {
    b, out := b0, out0;
    if k > 0 {
      b, out := BufferWithin(sent, ds, capacity, m, k - 1, b0, out0);
      b, out := BufferOneMore(sent, ds, capacity, m, k - 1, k, b, out);
    }
  }

  lemma {:induction false} BufferRun(sent: SentLog, ds: seq<Delivery>, capacity: nat, m: nat)
    returns (b: Buffer.Buffer, out: seq<Frame>)
    requires GoodLog(sent) && Lossless(sent, ds) && m <= |ds|
    ensures BufferAt(sent, ds, capacity, m, 0, b, out)
  {
    if m == 0 {
      b, out := BufferStart(sent, ds, capacity);
    } else {
      b, out := BufferRun(sent, ds, capacity, m - 1);
      b, out := BufferWithin(sent, ds, capacity, m - 1, |ds[m - 1].order|, b, out);
      BufferNextFrame(sent, ds, capacity, m, b, out);
    }
  }

  lemma {:induction false} BufferStart(sent: SentLog, ds: seq<Delivery>, capacity: nat)
    returns (b: Buffer.Buffer, out: seq<Frame>)
    requires GoodLog(sent) && Lossless(sent, ds)
    ensures BufferAt(sent, ds, capacity, 0, 0, b, out)
  {
    b, out := Buffer.NewBuffer(capacity), [];
    LosslessKnown(sent, ds);
    assert Calls(sent, ds, 0, 0) == [];
    assert (b, out) == Buffer.Run(capacity, []);
  }

  lemma {:induction false} BufferNextFrame(sent: SentLog, ds: seq<Delivery>, capacity: nat, m: nat,
                                           b: Buffer.Buffer, out: seq<Frame>)
    requires 0 < m <= |ds| && BufferAt(sent, ds, capacity, m - 1, |ds[m - 1].order|, b, out)
    ensures BufferAt(sent, ds, capacity, m, 0, b, out)
  {
    EventsTurn(sent, ds, m);
    BufferTurn(sent, ds, b, m - 1);
    OutTurn(sent, ds, out, m - 1);
  }

  lemma {:induction false} CallsSnoc(sent: SentLog, ds: seq<Delivery>, m: nat, j: nat, k: nat)
    requires GoodLog(sent) && Lossless(sent, ds) && m < |ds| && k == j + 1 <= |ds[m].order|
    ensures Calls(sent, ds, m, k) == Calls(sent, ds, m, j) + [CallAt(sent, ds, m, j)]
  {
  }

  lemma {:induction false} BufferOneMore(sent: SentLog, ds: seq<Delivery>, capacity: nat, m: nat, j: nat, k: nat,
                                         b0: Buffer.Buffer, out0: seq<Frame>)
    returns (b: Buffer.Buffer, out: seq<Frame>)
    requires BufferAt(sent, ds, capacity, m, j, b0, out0) && m < |ds| && k == j + 1 <= |ds[m].order|
    ensures BufferAt(sent, ds, capacity, m, k, b, out)
  {
    HasFragments(sent, ds, m);
    CallsSnoc(sent, ds, m, j, k);
    b := BufferStep(sent, ds, capacity, Calls(sent, ds, m, j), b0, out0, m, j);
    out := out0 + NewlyOut(sent, ds, m, j);
    OutStep(sent, ds, out0, m, j);
  }

  /**
   * On a lossless stream both receivers hand out exactly the frames sent, each once and in order,
   * whatever the order of fragments within each frame and however small the receivers are.
   */
  lemma {:induction false} TwoReceiversAgree(sent: SentLog, ds: seq<Delivery>, c: Config, capacity: nat)
    requires GoodLog(sent) && Lossless(sent, ds) && c.maxHeld >= 1
    ensures Known(sent, ds)
    ensures Handed(WindowRuns.Run(c, Events(sent, ds, |ds|, 0)).1) == Originals(sent, ds)
    ensures Buffer.Run(capacity, Calls(sent, ds, |ds|, 0)).1 == Originals(sent, ds)
  {
    var w, outs := WindowRun(sent, ds, c, |ds|);
    var b, out := BufferRun(sent, ds, capacity, |ds|);
    assert ds[..|ds|] == ds;
  }
}
