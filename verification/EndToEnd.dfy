/**
 * Host, channel and viewer together. The host cuts frames into datagrams and answers requests from
 * its cache; the channel loses, duplicates and reorders at will; the viewer hands out frames.
 */
module EndToEnd {
  import opened Prelude
  import opened Wire
  import opened Fragments
  import opened Sender
  import opened WindowModel
  import opened WindowSteps
  import opened WindowInvariant
  import opened WindowRuns
  import Cache = RetransmitCache

  /** A frame the host sent, and the fragment payload size it was cut with. */
  datatype SentFrame = SentFrame(frame: EncodedFrame, chunk: nat)

  type SentLog = map<nat, SentFrame>

  predicate GoodLog(sent: SentLog) {
    forall id :: id in sent ==>
      sent[id].frame.id == id && sent[id].chunk > 0 && |Chunks(sent[id].frame.data, sent[id].chunk)| < 0x1_0000
  }

  function Parts(s: SentFrame): seq<Bytes>
    requires s.chunk > 0
  {
    Chunks(s.frame.data, s.chunk)
  }

  /** The fragment is one the host cut from a frame it sent. */
  predicate Genuine(sent: SentLog, h: Header, payload: Bytes)
    requires GoodLog(sent)
  {
    && h.frameId in sent
    && var s := sent[h.frameId];
       && h.fragId < |Parts(s)|
       && h == HeaderFor(s.frame, h.fragId, |Parts(s)|)
       && payload == Parts(s)[h.fragId]
  }

  /** What a slot holds is part of, or all of, the frame the host sent under its id. */
  predicate SlotFaithful(sent: SentLog, id: nat, s: Slot)
    requires GoodLog(sent)
  {
    && (s.complete.Some? ==> id in sent && s.complete.value == Original(sent[id].frame))
    && (s.complete.None? && s.received == 0 ==> !s.isKey)
    && (s.complete.None? && s.fragTotal.Some? ==> id in sent && PartlyFaithful(sent[id], s))
  }

  predicate PartlyFaithful(f: SentFrame, s: Slot)
    requires f.chunk > 0
  {
    && s.fragTotal == Some(|Parts(f)|) && |s.fragments| == |Parts(f)|
    && (forall i :: 0 <= i < |s.fragments| && s.fragments[i].Some? ==> s.fragments[i].value == Parts(f)[i])
    && (s.received > 0 ==> s.isKey == f.frame.isKey && s.pts == WirePts(f.frame.ptsNs))
  }

  predicate Faithful(sent: SentLog, w: Window)
    requires GoodLog(sent)
  {
    forall id :: id in w.slots ==> SlotFaithful(sent, id, w.slots[id])
  }

  predicate FramesFaithful(sent: SentLog, frames: seq<Frame>)
    requires GoodLog(sent)
  {
    forall k :: 0 <= k < |frames| ==> frames[k].id in sent && frames[k] == Original(sent[frames[k].id].frame)
  }

  // ---- each stage of a call keeps the window faithful ----

  /** One more genuine fragment in an open slot; the last one makes the frame exactly the original. */
  lemma {:induction false} StoreFaithful(sent: SentLog, s: Slot, h: Header, payload: Bytes)
    requires GoodLog(sent) && Genuine(sent, h, payload) && SlotFaithful(sent, h.frameId, s)
    requires Open(s) && h.fragId < |s.fragments| && s.fragments[h.fragId].None?
    ensures var r := Store(s, h, payload);
            SlotFaithful(sent, h.frameId, if Full(r) then Finish(r, h.frameId) else r)
  {
    var f := sent[h.frameId];
    var r := Store(s, h, payload);
    assert IsKeyframe(h) == f.frame.isKey;
    StoreOpen(s, h, payload);
    assert PartlyFaithful(f, r);
    if Full(r) {
      ArrivedAll(r.fragments);
      assert forall i :: 0 <= i < |r.fragments| ==> r.fragments[i] == Some(Parts(f)[i]);
      AssembleAll(r.fragments, Parts(f));
      ChunksJoin(f.frame.data, f.chunk);
    }
  }

  lemma {:induction false} SlotForFaithful(sent: SentLog, w: Window, h: Header)
    requires GoodLog(sent) && Faithful(sent, w) && Base(w) && WellShaped(w) && h.frameId in sent
    requires h.fragTotal == |Parts(sent[h.frameId])|
    ensures SlotFaithful(sent, h.frameId, SlotFor(w, h.frameId, h.fragTotal))
  {
    if h.frameId in w.slots { assert SlotOk(h.frameId, w.slots[h.frameId]); }
  }

  /** Slots that only lose or gain timing and request bookkeeping stay faithful. */
  predicate SameContents(w: Window, w': Window) {
    forall id :: id in w'.slots ==>
      if id in w.slots then SameFrame(w.slots[id], w'.slots[id])
      else w'.slots[id].fragTotal.None? && w'.slots[id].complete.None? && !w'.slots[id].isKey
  }

  lemma {:induction false} SameContentsFaithful(sent: SentLog, w: Window, w': Window)
    requires GoodLog(sent) && Faithful(sent, w) && SameContents(w, w')
    ensures Faithful(sent, w')
  {
    forall id | id in w'.slots ensures SlotFaithful(sent, id, w'.slots[id]) {
      if id in w.slots { assert SlotFaithful(sent, id, w.slots[id]); }
    }
  }

  lemma {:induction false} MarkTailsContents(w: Window, now: nat)
    requires WellShaped(w)
    ensures SameContents(w, MarkTails(w, now))
  {
  }

  lemma {:induction false} FillGapContents(w: Window, highest: nat, frameId: nat, now: nat)
    ensures SameContents(w, FillGap(w, highest, frameId, now))
  {
  }

  lemma {:induction false} NoteFaithful(sent: SentLog, w: Window, f: nat, isKey: bool, now: nat)
    requires GoodLog(sent) && Faithful(sent, w) && WellShaped(w)
    ensures Faithful(sent, NoteNewFrame(w, f, isKey, now).0)
  {
    var w0 := NoteAsked(w, now);
    if w0.highest.Some? && f > w0.highest.value {
      var w1 := MarkTails(w0, now).(highest := Some(f));
      MarkTailsContents(w0, now);
      SameContentsFaithful(sent, w0, w1);
      FillGapContents(w1, w0.highest.value, f, now);
      SameContentsFaithful(sent, w1, FillGap(w1, w0.highest.value, f, now));
    }
  }

  lemma {:induction false} StoredFaithful(sent: SentLog, w: Window, h: Header, payload: Bytes, now: nat)
    requires GoodLog(sent) && Faithful(sent, w) && Base(w) && WellShaped(w)
    requires Accepted(w, h, now) && Genuine(sent, h, payload)
    ensures Faithful(sent, Stored(w, h, payload, now).0)
  {
    NoteFaithful(sent, w, h.frameId, IsKeyframe(h), now);
    NoteBase(w, h.frameId, IsKeyframe(h), now);
    NoteKeepsShape(w, h.frameId, IsKeyframe(h), now);
    var w1 := NoteNewFrame(w, h.frameId, IsKeyframe(h), now).0;
    SlotForFaithful(sent, w1, h);
    SlotForOpen(w1, h.frameId, h.fragTotal);
    AcceptFaithful(sent, w1, SlotFor(w1, h.frameId, h.fragTotal), h, payload);
  }

  lemma {:induction false} AcceptFaithful(sent: SentLog, w: Window, slot: Slot, h: Header, payload: Bytes)
    requires GoodLog(sent) && Faithful(sent, w) && WellShaped(w) && Genuine(sent, h, payload)
    requires SlotFaithful(sent, h.frameId, slot) && Open(slot) && Shaped(slot)
    requires h.fragId < |slot.fragments| && slot.fragments[h.fragId].None?
    ensures Faithful(sent, Accept(w, slot, h, payload).0)
  {
    StoreFaithful(sent, slot, h, payload);
    var w' := Accept(w, slot, h, payload).0;
    forall id | id in w'.slots ensures SlotFaithful(sent, id, w'.slots[id]) {
      if id != h.frameId { assert SlotFaithful(sent, id, w.slots[id]); }
    }
  }

  /** What is handed out is exactly what was sent. */
  lemma {:induction false} ReleaseFaithful(sent: SentLog, w: Window)
    requires GoodLog(sent) && Faithful(sent, w)
    ensures Faithful(sent, Release(w).0) && FramesFaithful(sent, Release(w).1)
    decreases w.slots.Keys
  {
    if NextReady(w) {
      TakeNextShrinks(w);
      assert SlotFaithful(sent, w.nextId.value, w.slots[w.nextId.value]);
      var w1 := TakeNext(w);
      forall id | id in w1.slots ensures SlotFaithful(sent, id, w1.slots[id]) {
        assert SlotFaithful(sent, id, w.slots[id]);
      }
      ReleaseFaithful(sent, w1);
    } else if CompleteKeys(w) != {} {
      var key := Least(CompleteKeys(w));
      TakeKeyShrinks(w, key);
      assert SlotFaithful(sent, key, w.slots[key]);
      var w1 := TakeKey(w, key);
      forall id | id in w1.slots ensures SlotFaithful(sent, id, w1.slots[id]) {
        assert SlotFaithful(sent, id, w.slots[id]);
      }
      ReleaseFaithful(sent, w1);
    }
  }

  lemma {:induction false} SettleFaithful(sent: SentLog, w: Window, now: nat)
    requires GoodLog(sent) && Faithful(sent, w) && Base(w) && WellShaped(w)
    ensures Faithful(sent, Settle(w, now).0) && FramesFaithful(sent, Settle(w, now).1.frames)
  {
    ReleaseFaithful(sent, w);
    ReleaseStage(w);
    var w1 := Release(w).0;
    RequestStage(w1, now);
    var w2 := RequestMissing(w1, now).0;
    assert SameContents(w1, w2) by { assert forall id :: id in w2.slots <==> id in w1.slots.Keys; }
    SameContentsFaithful(sent, w1, w2);
    SettleStages(w, now);
    EnforceInv(w2, now);
    SubsetFaithful(sent, w2, EnforceCapacity(w2, now).0);
  }

  lemma {:induction false} SubsetFaithful(sent: SentLog, w: Window, w': Window)
    requires GoodLog(sent) && Faithful(sent, w)
    requires forall id :: id in w'.slots ==> id in w.slots && w'.slots[id] == w.slots[id]
    ensures Faithful(sent, w')
  {
    forall id | id in w'.slots ensures SlotFaithful(sent, id, w'.slots[id]) {
      assert SlotFaithful(sent, id, w.slots[id]);
    }
  }

  lemma {:induction false} InsertFaithful(sent: SentLog, w: Window, h: Header, payload: Bytes, now: nat)
    requires GoodLog(sent) && Faithful(sent, w) && Inv(w) && WellShaped(w) && Genuine(sent, h, payload)
    ensures var (w', out, _) := Insert(w, h, payload, now); Faithful(sent, w') && FramesFaithful(sent, out.frames)
  {
    if Accepted(w, h, now) {
      StoredFaithful(sent, w, h, payload, now);
      StoredBase(w, h, payload, now);
      SettleFaithful(sent, Stored(w, h, payload, now).0, now);
    } else {
      InsertRefused(w, h, payload, now);
    }
  }

  lemma {:induction false} PollFaithful(sent: SentLog, w: Window, now: nat)
    requires GoodLog(sent) && Faithful(sent, w) && Inv(w) && WellShaped(w)
    ensures Faithful(sent, Poll(w, now).0) && Poll(w, now).1.frames == []
  {
    PollInv(w, now);
    var w1 := GiveUpExpired(w, now).0;
    if Expired(w, now) != {} { GiveUpKeeps(w, Greatest(Expired(w, now)), now); }
    SubsetFaithful(sent, w, w1);
    var w2 := RequestMissing(w1, now).0;
    forall id | id in w2.slots ensures id in w1.slots && SameFrame(w1.slots[id], w2.slots[id]) {
      RequestSameFrame(w1, id, now);
    }
    SameContentsFaithful(sent, w1, w2);
  }

  lemma {:induction false} SlotSameFrame(s: Slot, tailKnown: bool, due: bool, limit: nat, now: nat)
    requires Shaped(s)
    ensures SameFrame(s, RequestSlot(s, tailKnown, due, limit, now).0)
  {
    if s.fragTotal.Some? { PartsAskIs(s, tailKnown, due, limit, now); }
  }

  lemma {:induction false} RequestSameFrame(w: Window, id: nat, now: nat)
    requires WellShaped(w) && id in w.slots
    ensures SameFrame(w.slots[id], Request(w, id, now).0)
  {
    var s := w.slots[id];
    SlotSameFrame(s, TailKnown(w, id), RetryDue(w, s, now), w.config.maxNackRounds, now);
  }

  // ---- the whole system ----

  /** `wire` is every datagram ever put on the channel; any of them may arrive at any time, or never. */
  datatype System = System(
    sent: SentLog,
    cache: Cache.Cache,
    wire: set<Bytes>,
    window: Window,
    handed: seq<Frame>)

  datatype Happening =
    /** The host sends a frame and remembers it. */
    | Transmit(frame: EncodedFrame, maxPayload: nat, now: nat)
    /** The connection fails after some of the frame's datagrams; nothing is remembered. */
    | TransmitPartly(frame: EncodedFrame, maxPayload: nat, count: nat)
    /** The stream went quiet: the last datagram again. */
    | ProbeTail
    /** The host answers a request. */
    | Answer(frameId: nat, fragIds: seq<nat>, now: nat, minGap: nat)
    /** A datagram reaches the viewer. */
    | Arrive(datagram: Bytes, now: nat)
    /** The viewer polls its timers, learns a round-trip time or skips ahead. */
    | Call(call: Event)

  /** Frame ids are used once, and only what was put on the wire arrives. */
  predicate Possible(s: System, e: Happening) {
    match e
    case Transmit(frame, _, _) => frame.id !in s.sent
    case TransmitPartly(frame, _, _) => frame.id !in s.sent
    case Arrive(d, _) => d in s.wire
    case Call(call) => !call.Fragment?
    case _ => true
  }

  /** The datagrams of a frame, unless there are too many for the header. */
  function Cut(f: EncodedFrame, maxPayload: nat): Option<seq<Bytes>> {
    if |Chunks(f.data, ChunkSize(maxPayload))| < 0x1_0000
    then Some(DatagramsOf(f, ChunkSize(maxPayload))) else None
  }

  function Elements(ds: seq<Bytes>): set<Bytes> {
    set i | 0 <= i < |ds| :: ds[i]
  }

  /** The datagrams a cache answer puts on the wire again. */
  function Resent(c: Cache.Cache, a: Cache.Answer): set<Bytes>
    requires a.Answer? ==> a.at < |c.frames|
  {
    if a.Unavailable? then {}
    else set k | 0 <= k < |a.indices| && a.indices[k] < |c.frames[a.at].datagrams| ::
           c.frames[a.at].datagrams[a.indices[k]]
  }

  /** The viewer makes one call on its window and decodes what it hands out. */
  ghost function View(s: System, e: Event): System
    requires Inv(s.window) && WellShaped(s.window)
  {
    var (w, out) := Step(s.window, e);
    s.(window := w, handed := s.handed + out.frames)
  }

  ghost function Next(s: System, e: Happening): System
    requires Inv(s.window) && WellShaped(s.window)
  {
    match e
    case Transmit(f, maxPayload, now) =>
      var ds := Cut(f, maxPayload);
      if ds.None? then s
      else
        s.(sent := s.sent[f.id as nat := SentFrame(f, ChunkSize(maxPayload))],
           wire := s.wire + Elements(ds.value),
           cache := Cache.Add(s.cache, f.id, ds.value, now))
    case TransmitPartly(f, maxPayload, count) =>
      var ds := Cut(f, maxPayload);
      if ds.None? || count > |ds.value| then s
      else
        s.(sent := s.sent[f.id as nat := SentFrame(f, ChunkSize(maxPayload))],
           wire := s.wire + Elements(ds.value[..count]))
    case ProbeTail =>
      var d := Cache.Probe(s.cache);
      if d.None? then s else s.(wire := s.wire + {d.value})
    case Answer(frameId, fragIds, now, minGap) =>
      var (c, a) := Cache.Take(s.cache, frameId, fragIds, now, minGap);
      s.(cache := c, wire := s.wire + Resent(s.cache, a))
    case Arrive(d, now) =>
      if Decode(d).Err? then s else View(s, Fragment(Decode(d).value, d[HEADER_SIZE..], now))
    case Call(call) => View(s, call)
  }

  function Start(c: Config): System {
    System(map[], Cache.EMPTY, {}, New(c), [])
  }

  /** `d` is a datagram of a frame the host sent. */
  ghost predicate OnWire(sent: SentLog, d: Bytes)
    requires GoodLog(sent)
  {
    exists id: nat, i: nat :: IsDatagram(sent, d, id, i)
  }

  predicate IsDatagram(sent: SentLog, d: Bytes, id: nat, i: nat)
    requires GoodLog(sent)
  {
    id in sent && i < |Parts(sent[id])| && d == DatagramsOf(sent[id].frame, sent[id].chunk)[i]
  }

  predicate CacheOnWire(c: Cache.Cache, wire: set<Bytes>) {
    forall p, i :: 0 <= p < |c.frames| && 0 <= i < |c.frames[p].datagrams| ==> c.frames[p].datagrams[i] in wire
  }

  /** What the cache holds under an id is the whole of the frame sent under it. */
  predicate CacheIsSent(sent: SentLog, c: Cache.Cache)
    requires GoodLog(sent)
  {
    forall p :: 0 <= p < |c.frames| ==> EntryIsSent(sent, c.frames[p])
  }

  predicate EntryIsSent(sent: SentLog, f: Cache.SentFrame)
    requires GoodLog(sent)
  {
    && f.frameId in sent && f.datagrams == DatagramsOf(sent[f.frameId].frame, sent[f.frameId].chunk)
    && |f.resentAt| == |f.datagrams|
  }

  ghost predicate SystemOk(s: System) {
    && GoodLog(s.sent)
    && CacheIsSent(s.sent, s.cache)
    && (forall d :: d in s.wire ==> OnWire(s.sent, d))
    && CacheOnWire(s.cache, s.wire)
    && Inv(s.window) && WellShaped(s.window)
    && Faithful(s.sent, s.window)
    && FramesFaithful(s.sent, s.handed)
    && DecodeOrder(s.handed) && Linked(s.window, LastId(s.handed))
  }

  // ---- every step keeps the system sound ----

  lemma {:induction false} LogGrows(sent: SentLog, id: nat, f: SentFrame, w: Window, handed: seq<Frame>)
    requires GoodLog(sent) && id !in sent && Faithful(sent, w) && FramesFaithful(sent, handed)
    requires f.frame.id == id && f.chunk > 0 && |Chunks(f.frame.data, f.chunk)| < 0x1_0000
    ensures GoodLog(sent[id := f]) && Faithful(sent[id := f], w) && FramesFaithful(sent[id := f], handed)
  {
    forall k | k in w.slots ensures SlotFaithful(sent[id := f], k, w.slots[k]) {
      assert SlotFaithful(sent, k, w.slots[k]);
    }
  }

  lemma {:induction false} WireGrows(sent: SentLog, id: nat, f: SentFrame, wire: set<Bytes>, ds: seq<Bytes>)
    requires GoodLog(sent) && id !in sent && f.frame.id == id && f.chunk > 0
        && |Chunks(f.frame.data, f.chunk)| < 0x1_0000
    requires forall d :: d in wire ==> OnWire(sent, d)
    requires ds <= DatagramsOf(f.frame, f.chunk)
    ensures GoodLog(sent[id := f])
    ensures forall d :: d in wire + Elements(ds) ==> OnWire(sent[id := f], d)
  {
    var sent' := sent[id := f];
    forall d | d in wire + Elements(ds) ensures OnWire(sent', d) {
      if d in wire {
        var k: nat, i: nat :| IsDatagram(sent, d, k, i);
        assert IsDatagram(sent', d, k, i);
      } else {
        var i :| 0 <= i < |ds| && ds[i] == d;
        assert IsDatagram(sent', d, id, i);
      }
    }
  }

  lemma {:induction false} CacheKeeps(c: Cache.Cache, wire: set<Bytes>, id: nat, ds: seq<Bytes>, now: nat)
    requires CacheOnWire(c, wire)
    ensures CacheOnWire(Cache.Add(c, id, ds, now), wire + Elements(ds))
  {
    var all := c.frames + [Cache.NewFrame(id, ds, now)];
    Cache.TrimIsSuffix(all, now);
    var kept := Cache.Trim(all, now);
    forall p, i | 0 <= p < |kept| && 0 <= i < |kept[p].datagrams| ensures kept[p].datagrams[i] in wire + Elements(ds) {
      assert kept[p] == all[|all| - |kept| + p];
    }
  }

  lemma {:induction false} EntriesKeep(sent: SentLog, c: Cache.Cache, id: nat, f: SentFrame)
    requires GoodLog(sent) && GoodLog(sent[id := f]) && id !in sent && CacheIsSent(sent, c)
    ensures CacheIsSent(sent[id := f], c)
  {
    forall p | 0 <= p < |c.frames| ensures EntryIsSent(sent[id := f], c.frames[p]) {
      assert EntryIsSent(sent, c.frames[p]);
    }
  }

  lemma {:induction false} EntryAdds(sent: SentLog, c: Cache.Cache, id: nat, ds: seq<Bytes>, now: nat)
    requires GoodLog(sent) && CacheIsSent(sent, c) && id in sent && ds == DatagramsOf(sent[id].frame, sent[id].chunk)
    ensures CacheIsSent(sent, Cache.Add(c, id, ds, now))
  {
    var all := c.frames + [Cache.NewFrame(id, ds, now)];
    Cache.TrimIsSuffix(all, now);
    var kept := Cache.Trim(all, now);
    forall p | 0 <= p < |kept| ensures EntryIsSent(sent, kept[p]) {
      assert kept[p] == all[|all| - |kept| + p];
    }
  }

  lemma {:induction false} EntriesAnswer(sent: SentLog, c: Cache.Cache, id: nat, fragIds: seq<nat>, now: nat,
                                         minGap: nat)
    requires GoodLog(sent) && CacheIsSent(sent, c)
    ensures CacheIsSent(sent, Cache.Take(c, id, fragIds, now, minGap).0)
  {
    var at := Cache.Newest(c.frames, id);
    if at.Some? {
      assert EntryIsSent(sent, c.frames[at.value]);
      Cache.ResendStamps(c.frames[at.value], Cache.Wanted(c.frames[at.value], fragIds), now, minGap);
    }
  }

  lemma {:induction false} TransmitOk(s: System, f: EncodedFrame, maxPayload: nat, now: nat)
    requires SystemOk(s) && f.id !in s.sent
    ensures SystemOk(Next(s, Transmit(f, maxPayload, now)))
  {
    var ds := Cut(f, maxPayload);
    if ds.Some? {
      var rec := SentFrame(f, ChunkSize(maxPayload));
      LogGrows(s.sent, f.id, rec, s.window, s.handed);
      WireGrows(s.sent, f.id, rec, s.wire, ds.value);
      CacheKeeps(s.cache, s.wire, f.id, ds.value, now);
      EntriesKeep(s.sent, s.cache, f.id, rec);
      EntryAdds(s.sent[f.id as nat := rec], s.cache, f.id, ds.value, now);
    }
  }

  lemma {:induction false} TransmitPartlyOk(s: System, f: EncodedFrame, maxPayload: nat, count: nat)
    requires SystemOk(s) && f.id !in s.sent
    ensures SystemOk(Next(s, TransmitPartly(f, maxPayload, count)))
  {
    var ds := Cut(f, maxPayload);
    if ds.Some? && count <= |ds.value| {
      var rec := SentFrame(f, ChunkSize(maxPayload));
      LogGrows(s.sent, f.id, rec, s.window, s.handed);
      WireGrows(s.sent, f.id, rec, s.wire, ds.value[..count]);
      EntriesKeep(s.sent, s.cache, f.id, rec);
    }
  }

  /** Probes and answers only repeat datagrams already sent. */
  lemma {:induction false} AnswerOk(s: System, id: nat, fragIds: seq<nat>, now: nat, minGap: nat)
    requires SystemOk(s)
    ensures var s' := Next(s, Answer(id, fragIds, now, minGap)); s'.wire == s.wire && SystemOk(s')
  {
    var (c, a) := Cache.Take(s.cache, id, fragIds, now, minGap);
    assert Resent(s.cache, a) <= s.wire;
    assert s.wire + Resent(s.cache, a) == s.wire;
    ResendKeepsDatagrams(s.cache, id, fragIds, now, minGap);
    assert CacheOnWire(c, s.wire);
    EntriesAnswer(s.sent, s.cache, id, fragIds, now, minGap);
  }

  lemma {:induction false} ResendKeepsDatagrams(c: Cache.Cache, id: nat, fragIds: seq<nat>, now: nat, minGap: nat)
    ensures var c' := Cache.Take(c, id, fragIds, now, minGap).0;
            |c'.frames| == |c.frames| && forall p :: 0 <= p < |c.frames| ==> c'.frames[p].datagrams == c.frames[p].datagrams
  {
    var at := Cache.Newest(c.frames, id);
    if at.Some? {
      ResendKeeps(c.frames[at.value], Cache.Wanted(c.frames[at.value], fragIds), now, minGap);
    }
  }

  lemma {:induction false} ResendKeeps(f: Cache.SentFrame, wanted: seq<nat>, now: nat, minGap: nat)
    ensures Cache.Resend(f, wanted, now, minGap).0.datagrams == f.datagrams
    decreases |wanted|
  {
    if wanted != [] {
      var i := wanted[0];
      if i < |f.datagrams| && i < |f.resentAt| && !Cache.Suppressed(f, i, now, minGap) {
        ResendKeeps(f.(resentAt := f.resentAt[i := Some(now)]), wanted[1..], now, minGap);
      } else {
        ResendKeeps(f, wanted[1..], now, minGap);
      }
    }
  }

  lemma {:induction false} ProbeOk(s: System)
    requires SystemOk(s)
    ensures Next(s, ProbeTail).wire == s.wire && SystemOk(Next(s, ProbeTail))
  {
    var d := Cache.Probe(s.cache);
    if d.Some? {
      var last := s.cache.frames[|s.cache.frames| - 1];
      assert last.datagrams[|last.datagrams| - 1] in s.wire;
      assert s.wire + {d.value} == s.wire;
    }
  }

  /** Every datagram on the wire parses to a genuine fragment. */
  lemma {:induction false} WireIsGenuine(sent: SentLog, d: Bytes)
    requires GoodLog(sent) && OnWire(sent, d)
    ensures Decode(d).Ok? && Genuine(sent, Decode(d).value, d[HEADER_SIZE..])
  {
    var id: nat, i: nat :| IsDatagram(sent, d, id, i);
    DatagramParses(sent[id].frame, sent[id].chunk, i);
  }

  lemma {:induction false} HandedGrows(sent: SentLog, handed: seq<Frame>, frames: seq<Frame>)
    requires GoodLog(sent) && FramesFaithful(sent, handed) && FramesFaithful(sent, frames)
    ensures FramesFaithful(sent, handed + frames)
  {
  }

  lemma {:induction false} ViewerOk(s: System, e: Event)
    requires SystemOk(s)
    requires Faithful(s.sent, Step(s.window, e).0) && FramesFaithful(s.sent, Step(s.window, e).1.frames)
    ensures SystemOk(View(s, e))
  {
    StepInv(s.window, e);
    BaseIsShaped(Step(s.window, e).0);
    DecodeOrderStep(s.window, e, s.handed);
    HandedGrows(s.sent, s.handed, Step(s.window, e).1.frames);
  }

  lemma {:induction false} FragmentFaithful(sent: SentLog, w: Window, h: Header, payload: Bytes, now: nat)
    requires GoodLog(sent) && Faithful(sent, w) && Inv(w) && WellShaped(w) && Genuine(sent, h, payload)
    ensures var (w', out) := Step(w, Fragment(h, payload, now)); Faithful(sent, w') && FramesFaithful(sent, out.frames)
  {
    InsertFaithful(sent, w, h, payload, now);
  }

  lemma {:induction false} GenuineOk(s: System, h: Header, payload: Bytes, now: nat)
    requires SystemOk(s) && Genuine(s.sent, h, payload)
    ensures SystemOk(View(s, Fragment(h, payload, now)))
  {
    FragmentFaithful(s.sent, s.window, h, payload, now);
    ViewerOk(s, Fragment(h, payload, now));
  }

  lemma {:induction false} ArriveOk(s: System, d: Bytes, now: nat)
    requires SystemOk(s) && d in s.wire
    ensures SystemOk(Next(s, Arrive(d, now)))
  {
    ArrivedIsGenuine(s, d);
    GenuineOk(s, Decode(d).value, d[HEADER_SIZE..], now);
    ArriveIs(s, d, now);
  }

  lemma {:induction false} ArrivedIsGenuine(s: System, d: Bytes)
    requires SystemOk(s) && d in s.wire
    ensures GoodLog(s.sent) && Decode(d).Ok? && |d| >= HEADER_SIZE && Genuine(s.sent, Decode(d).value, d[HEADER_SIZE..])
  {
    assert OnWire(s.sent, d);
    WireIsGenuine(s.sent, d);
  }

  lemma {:induction false} ArriveIs(s: System, d: Bytes, now: nat)
    requires Inv(s.window) && WellShaped(s.window) && Decode(d).Ok? && |d| >= HEADER_SIZE
    ensures Next(s, Arrive(d, now)) == View(s, Fragment(Decode(d).value, d[HEADER_SIZE..], now))
  {
  }

  lemma {:induction false} QuietOk(s: System, e: Event)
    requires SystemOk(s) && (e.Rtt? || e.SkipAhead?)
    ensures SystemOk(View(s, e))
  {
    var w := Step(s.window, e).0;
    if e.Rtt? || s.window.highest.None? {
      assert w.slots == s.window.slots;
    } else {
      assert w.slots == Kept(s.window);
    }
    SubsetFaithful(s.sent, s.window, w);
    ViewerOk(s, e);
  }

  lemma {:induction false} CallIs(s: System, call: Event)
    requires Inv(s.window) && WellShaped(s.window)
    ensures Next(s, Call(call)) == View(s, call)
  {
  }

  lemma {:induction false} CallOk(s: System, call: Event)
    requires SystemOk(s) && !call.Fragment?
    ensures SystemOk(Next(s, Call(call)))
  {
    if call.Tick? {
      PollFaithful(s.sent, s.window, call.now);
      ViewerOk(s, call);
    } else {
      QuietOk(s, call);
    }
    CallIs(s, call);
  }

  lemma {:induction false} NextOk(s: System, e: Happening)
    requires SystemOk(s) && Possible(s, e)
    ensures SystemOk(Next(s, e))
  {
    match e
    case Transmit(f, maxPayload, now) => TransmitOk(s, f, maxPayload, now);
    case TransmitPartly(f, maxPayload, count) => TransmitPartlyOk(s, f, maxPayload, count);
    case ProbeTail => ProbeOk(s);
    case Answer(id, fragIds, now, minGap) => AnswerOk(s, id, fragIds, now, minGap);
    case Arrive(d, now) => ArriveOk(s, d, now);
    case Call(call) => CallOk(s, call);
  }

  /** The system after a sequence of happenings from the start, if each was possible when it came. */
  ghost function Reach(c: Config, es: seq<Happening>): (r: Option<System>)
    ensures r.Some? ==> SystemOk(r.value)
  {
    if es == [] then
      StartOk(c);
      Some(Start(c))
    else
      var before := Reach(c, es[..|es| - 1]);
      if before.None? || !Possible(before.value, es[|es| - 1]) then None
      else
        NextOk(before.value, es[|es| - 1]);
        Some(Next(before.value, es[|es| - 1]))
  }

  lemma {:induction false} StartOk(c: Config)
    ensures SystemOk(Start(c))
  {
    NewInv(c);
    BaseIsShaped(New(c));
  }

  /**
   * End-to-end exactness: whatever the channel loses, duplicates, delays or repeats, and whatever is
   * resent or probed, every frame handed to the decoder is the frame the host sent under that id -
   * payload, keyframe flag and wire timestamp - and no id is handed out twice.
   */
  lemma {:induction false} EndToEndExact(c: Config, es: seq<Happening>)
    requires Reach(c, es).Some?
    ensures var s := Reach(c, es).value;
            && (forall k :: 0 <= k < |s.handed| ==>
                  s.handed[k].id in s.sent
                  && var f := s.sent[s.handed[k].id].frame;
                     s.handed[k] == Frame(f.id, f.isKey, WirePts(f.ptsNs), f.data))
            && (forall j, k :: 0 <= j < k < |s.handed| ==> s.handed[j].id < s.handed[k].id)
            && DecodeOrder(s.handed)
  {
    IncreasingIds(Reach(c, es).value.handed);
  }

  lemma {:induction false} IncreasingIds(fs: seq<Frame>)
    requires forall i :: 0 < i < |fs| ==> fs[i - 1].id < fs[i].id
    ensures forall j, k :: 0 <= j < k < |fs| ==> fs[j].id < fs[k].id
  {
    if fs != [] {
      var front := fs[..|fs| - 1];
      assert forall i :: 0 <= i < |front| ==> front[i] == fs[i];
      IncreasingIds(front);
      forall j, k | 0 <= j < k < |fs| ensures fs[j].id < fs[k].id {
        if k < |front| {
          assert front[j].id < front[k].id;
        } else if j < |fs| - 2 {
          assert front[j].id < front[|fs| - 2].id;
        }
      }
    }
  }

  // ---- what a tail probe sends ----

  /** The last frame the host sent whole. */
  function LastWhole(es: seq<Happening>): Option<SentFrame> {
    if es == [] then None
    else
      match es[|es| - 1]
      case Transmit(f, maxPayload, _) =>
        if |Chunks(f.data, ChunkSize(maxPayload))| < 0x1_0000 then Some(SentFrame(f, ChunkSize(maxPayload)))
        else LastWhole(es[..|es| - 1])
      case _ => LastWhole(es[..|es| - 1])
  }

  predicate Sendable(f: SentFrame) { f.chunk > 0 && |Parts(f)| < 0x1_0000 }

  /** The newest frame in the cache is `f`. */
  predicate NewestIs(c: Cache.Cache, f: Option<SentFrame>) {
    if f.None? then c.frames == []
    else
      && c.frames != [] && Sendable(f.value)
      && c.frames[|c.frames| - 1].datagrams == DatagramsOf(f.value.frame, f.value.chunk)
  }

  lemma {:induction false} AddIsNewest(c: Cache.Cache, f: SentFrame, now: nat)
    requires Sendable(f)
    ensures NewestIs(Cache.Add(c, f.frame.id, DatagramsOf(f.frame, f.chunk), now), Some(f))
  {
    TrimKeepsLast(c.frames + [Cache.NewFrame(f.frame.id, DatagramsOf(f.frame, f.chunk), now)], now);
  }

  lemma {:induction false} TrimKeepsLast(frames: seq<Cache.SentFrame>, now: nat)
    requires frames != []
    ensures var kept := Cache.Trim(frames, now); kept != [] && kept[|kept| - 1] == frames[|frames| - 1]
  {
    if Cache.Trim(frames, now) != frames { TrimKeepsLast(frames[1..], now); }
  }

  lemma {:induction false} TakeKeepsNewest(c: Cache.Cache, id: nat, fragIds: seq<nat>, now: nat, minGap: nat,
                                           f: Option<SentFrame>)
    requires NewestIs(c, f) && forall p :: 0 <= p < |c.frames| ==> |c.frames[p].resentAt| == |c.frames[p].datagrams|
    ensures NewestIs(Cache.Take(c, id, fragIds, now, minGap).0, f)
  {
    var at := Cache.Newest(c.frames, id);
    if at.Some? {
      Cache.ResendStamps(c.frames[at.value], Cache.Wanted(c.frames[at.value], fragIds), now, minGap);
    }
  }

  lemma {:induction false} ReachNewest(c: Config, es: seq<Happening>)
    requires Reach(c, es).Some?
    ensures NewestIs(Reach(c, es).value.cache, LastWhole(es))
  {
    if es != [] {
      var before := es[..|es| - 1];
      ReachNewest(c, before);
      NextNewest(Reach(c, before).value, es[|es| - 1], LastWhole(before));
    }
  }

  lemma {:induction false} NextNewest(s: System, e: Happening, f: Option<SentFrame>)
    requires SystemOk(s) && NewestIs(s.cache, f)
    ensures NewestIs(Next(s, e).cache,
                     if e.Transmit? && Cut(e.frame, e.maxPayload).Some? then Some(SentFrame(e.frame, ChunkSize(e.maxPayload)))
                     else f)
  {
    match e
    case Transmit(frame, maxPayload, now) =>
      if Cut(frame, maxPayload).Some? { AddIsNewest(s.cache, SentFrame(frame, ChunkSize(maxPayload)), now); }
    case Answer(id, fragIds, now, minGap) =>
      assert forall p :: 0 <= p < |s.cache.frames| ==> EntryIsSent(s.sent, s.cache.frames[p]);
      TakeKeepsNewest(s.cache, id, fragIds, now, minGap, f);
    case _ =>
  }

  /**
   * In every reachable state a tail probe is the last piece of the last frame sent whole, whatever was
   * resent or let go of since, and it says so: a viewer that gets it knows the frame's full size.
   */
  lemma {:induction false} ProbeIsTheTail(c: Config, es: seq<Happening>)
    requires Reach(c, es).Some?
    ensures var d := Cache.Probe(Reach(c, es).value.cache); var f := LastWhole(es);
            && (d.None? <==> f.None?)
            && (d.Some? ==> f.value.chunk > 0 && IsTail(d.value, f.value))
  {
    ReachNewest(c, es);
    if LastWhole(es).Some? { NewestIsTail(Reach(c, es).value.cache, LastWhole(es).value); }
  }

  lemma {:induction false} NewestIsTail(c: Cache.Cache, f: SentFrame)
    requires NewestIs(c, Some(f))
    ensures Cache.Probe(c).Some? && IsTail(Cache.Probe(c).value, f)
  {
    DatagramParses(f.frame, f.chunk, |Parts(f)| - 1);
  }

  /** `d` is the last datagram of `f`. */
  predicate IsTail(d: Bytes, f: SentFrame)
    requires f.chunk > 0
  {
    var (n, h) := (|Parts(f)|, Decode(d));
    && h.Ok? && h.value.frameId == f.frame.id && h.value.fragTotal == n && h.value.fragId == n - 1 && IsLast(h.value)
    && d[HEADER_SIZE..] == Parts(f)[n - 1]
  }
}
