/** The older receiver: completes frames within a sliding window and forgets the rest. */
module Reassembly {
  import opened Prelude
  import opened Wire
  import opened Fragments
  import opened Sender
  import opened EndToEnd

  datatype Pending = Pending(total: nat, received: nat, isKey: bool, pts: nat, fragments: Table)

  datatype Buffer = Buffer(capacity: nat, pending: map<nat, Pending>, watermark: Option<nat>, dropped: nat)

  function NewBuffer(capacity: nat): Buffer {
    Buffer(if capacity == 0 then 1 else capacity, map[], None, 0)
  }

  /** At or below the newest frame completed or abandoned. */
  predicate IsStale(b: Buffer, id: nat) {
    b.watermark.Some? && id <= b.watermark.value
  }

  function Retired(b: Buffer, id: nat): Buffer {
    b.(watermark := Some(if b.watermark.Some? then Max(b.watermark.value, id) else id))
  }

  predicate PendingOk(p: Pending) {
    && |p.fragments| == p.total && p.received == Arrived(p.fragments) < p.total
  }

  predicate BufferOk(b: Buffer) {
    && b.capacity >= 1 && |b.pending| <= b.capacity
    && forall id :: id in b.pending ==> PendingOk(b.pending[id])
  }

  function Open(h: Header): Pending {
    Pending(h.fragTotal, 0, false, h.pts, EmptyTable(h.fragTotal))
  }

  function Put(p: Pending, h: Header, payload: Bytes): Pending
    requires h.fragId < |p.fragments|
  {
    Pending(p.total, p.received + 1, p.isKey || IsKeyframe(h), if h.fragId == 0 then h.pts else p.pts,
            p.fragments[h.fragId := Some(payload)])
  }

  /** Room for one more frame: the oldest incomplete one is abandoned when the window is full. */
  function MakeRoom(b: Buffer, oldest: nat): Buffer {
    Retired(b.(pending := b.pending - {oldest}, dropped := b.dropped + 1), oldest)
  }

  predicate NeedsRoom(b: Buffer, id: nat) {
    id !in b.pending && |b.pending| >= b.capacity
  }

  lemma {:induction false} FullHasKeys(b: Buffer)
    requires b.capacity >= 1 && |b.pending| >= b.capacity
    ensures b.pending.Keys != {}
  {
  }

  /** The buffer after a valid, current fragment; a frame if it was the last one missing. */
  function Admit(b: Buffer, h: Header, payload: Bytes): (Buffer, Result<Option<Frame>>)
    requires BufferOk(b) && h.fragId < h.fragTotal
  {
    var id: nat := h.frameId;
    var p := if id in b.pending then b.pending[id] else Open(h);
    if p.total != h.fragTotal then
      (b, Err(FragmentTotalMismatch(id, p.total, h.fragTotal)))
    else if p.fragments[h.fragId].Some? then
      (b, Err(DuplicateFragment(id, h.fragId)))
    else
      var q := Put(p, h, payload);
      if q.received == q.total then
        (Retired(b.(pending := b.pending - {id}), id),
         Ok(Some(Frame(id, q.isKey, q.pts, Assemble(q.fragments)))))
      else
        (b.(pending := b.pending[id := q]), Ok(None))
  }

  lemma {:induction false} MakeRoomOk(b: Buffer, oldest: nat)
    requires BufferOk(b) && oldest in b.pending
    ensures BufferOk(MakeRoom(b, oldest)) && |MakeRoom(b, oldest).pending| == |b.pending| - 1
  {
    var after := b.pending - {oldest};
    assert after.Keys == b.pending.Keys - {oldest};
    assert |after.Keys| == |b.pending.Keys| - 1;
  }

  ghost function Inserted(b: Buffer, h: Header, payload: Bytes): (Buffer, Result<Option<Frame>>)
    requires BufferOk(b)
  {
    if Validate(h).Err? then (b, Err(Validate(h).error))
    else if IsStale(b, h.frameId) then (b, Ok(None))
    else if NeedsRoom(b, h.frameId) then
      FullHasKeys(b);
      var oldest := Least(b.pending.Keys);
      if h.frameId < oldest then (b.(dropped := b.dropped + 1), Ok(None))
      else
        MakeRoomOk(b, oldest);
        Admit(MakeRoom(b, oldest), h, payload)
    else Admit(b, h, payload)
  }

  /** Forgets incomplete frames older than `minId`. */
  ghost function DropOlderThan(b: Buffer, minId: nat): Buffer {
    var gone := set k | k in b.pending && k < minId;
    if gone == {} then b
    else b.(pending := b.pending - gone, dropped := b.dropped + |gone|,
            watermark := RaisedBy(b.watermark, gone))
  }

  /** The watermark raised to the greatest of `ids`. */
  ghost function RaisedBy(watermark: Option<nat>, ids: set<nat>): (r: Option<nat>)
    requires ids != {}
    ensures r.Some?
    ensures watermark.Some? ==> r.value >= watermark.value
    ensures forall id :: id in ids ==> id <= r.value
    ensures r == watermark || r.value in ids
  {
    var g := Greatest(ids);
    Some(if watermark.Some? then Max(watermark.value, g) else g)
  }

  // ---- what every call keeps ----

  lemma {:induction false} PutOk(p: Pending, h: Header, payload: Bytes)
    requires PendingOk(p) || p == Open(h)
    requires p.total == h.fragTotal && h.fragId < h.fragTotal && p.fragments[h.fragId].None?
    ensures var q := Put(p, h, payload);
            |q.fragments| == q.total && q.received == Arrived(q.fragments) <= q.total
  {
    ArrivedNone(EmptyTable(h.fragTotal));
    ArrivedStore(p.fragments, h.fragId, payload);
  }

  lemma {:induction false} AdmitOk(b: Buffer, h: Header, payload: Bytes)
    requires BufferOk(b) && h.fragId < h.fragTotal && !NeedsRoom(b, h.frameId)
    ensures BufferOk(Admit(b, h, payload).0)
  {
    var id: nat := h.frameId;
    var p := if id in b.pending then b.pending[id] else Open(h);
    if p.total == h.fragTotal && p.fragments[h.fragId].None? {
      PutOk(p, h, payload);
      Holding(b, id, Put(p, h, payload));
      SubsetSize(b.pending.Keys - {id}, b.pending.Keys);
      assert (b.pending - {id}).Keys == b.pending.Keys - {id};
    }
  }

  lemma {:induction false} Holding(b: Buffer, id: nat, q: Pending)
    requires !NeedsRoom(b, id) && |b.pending| <= b.capacity
    ensures |b.pending[id := q]| <= b.capacity
  {
    assert b.pending[id := q].Keys == b.pending.Keys + {id};
    if id in b.pending { assert b.pending[id := q].Keys == b.pending.Keys; }
  }

  lemma {:induction false} InsertOk(b: Buffer, h: Header, payload: Bytes)
    requires BufferOk(b)
    ensures BufferOk(Inserted(b, h, payload).0)
  {
    if Validate(h).Ok? && !IsStale(b, h.frameId) {
      if NeedsRoom(b, h.frameId) {
        FullHasKeys(b);
        var oldest := Least(b.pending.Keys);
        MakeRoomOk(b, oldest);
        if h.frameId >= oldest { AdmitOk(MakeRoom(b, oldest), h, payload); }
      } else {
        AdmitOk(b, h, payload);
      }
    }
  }

  lemma {:induction false} DropOk(b: Buffer, minId: nat)
    requires BufferOk(b)
    ensures BufferOk(DropOlderThan(b, minId))
  {
    var b' := DropOlderThan(b, minId);
    assert b'.pending.Keys <= b.pending.Keys;
    SubsetSize(b'.pending.Keys, b.pending.Keys);
  }

  // ---- runs ----

  datatype Call = Take(h: Header, payload: Bytes) | Drop(minId: nat)

  /** The buffer after a run, and the frames it gave out. */
  ghost function Run(capacity: nat, calls: seq<Call>): (r: (Buffer, seq<Frame>))
    ensures BufferOk(r.0)
  {
    if calls == [] then (NewBuffer(capacity), [])
    else
      var (b, out) := Run(capacity, calls[..|calls| - 1]);
      match calls[|calls| - 1]
      case Take(h, payload) =>
        InsertOk(b, h, payload);
        var (b', r) := Inserted(b, h, payload);
        (b', if r.Ok? && r.value.Some? then out + [r.value.value] else out)
      case Drop(minId) =>
        DropOk(b, minId);
        (DropOlderThan(b, minId), out)
  }

  predicate Increasing(fs: seq<Frame>) {
    forall i, j :: 0 <= i < j < |fs| ==> fs[i].id < fs[j].id
  }

  /** Everything given out lies at or below the watermark. */
  predicate Below(fs: seq<Frame>, watermark: Option<nat>) {
    forall i :: 0 <= i < |fs| ==> watermark.Some? && fs[i].id <= watermark.value
  }

  /** A call raises the watermark, and gives out only a frame that was above it. */
  lemma {:induction false} InsertAdvances(b: Buffer, h: Header, payload: Bytes)
    requires BufferOk(b)
    ensures var (b', r) := Inserted(b, h, payload);
            && b'.capacity == b.capacity
            && (b.watermark.Some? ==> b'.watermark.Some? && b'.watermark.value >= b.watermark.value)
            && (r.Ok? && r.value.Some? ==>
                  && r.value.value.id == h.frameId && !IsStale(b, h.frameId)
                  && b'.watermark.Some? && b'.watermark.value >= h.frameId)
            && (IsStale(b, h.frameId) ==> b' == b && !(r.Ok? && r.value.Some?))
  {
  }

  /**
   * Over any run the frames come out in strictly increasing order, at most `capacity` incomplete
   * ones are held, and whatever was given out is never accepted again.
   */
  lemma {:induction false} RunIncreasing(capacity: nat, calls: seq<Call>)
    ensures var (b, out) := Run(capacity, calls);
            && Increasing(out) && Below(out, b.watermark)
            && |b.pending| <= b.capacity && b.capacity == (if capacity == 0 then 1 else capacity)
  {
    if calls != [] {
      RunIncreasing(capacity, calls[..|calls| - 1]);
      var (b, out) := Run(capacity, calls[..|calls| - 1]);
      match calls[|calls| - 1]
      case Take(h, payload) => InsertAdvances(b, h, payload);
      case Drop(minId) =>
    }
  }

  /**
   * In every reachable state a fragment is an error if its header is invalid, or if it is above the watermark and
   * its frame, of which some is here, has another total or has it already; nothing else is.
   */
  lemma {:induction false} InsertErrors(capacity: nat, calls: seq<Call>, h: Header, payload: Bytes)
    ensures var b := Run(capacity, calls).0; var id: nat := h.frameId;
            var open := id in b.pending && (b.watermark.Some? ==> id > b.watermark.value);
            var r := Inserted(b, h, payload).1;
            if Validate(h).Err? then r == Err(InvalidFragmentBounds(h.fragId, h.fragTotal))
            else if open && b.pending[id].total != h.fragTotal
              then r == Err(FragmentTotalMismatch(id, b.pending[id].total, h.fragTotal))
            else if open && h.fragId < |b.pending[id].fragments| && b.pending[id].fragments[h.fragId].Some?
              then r == Err(DuplicateFragment(id, h.fragId))
            else r.Ok?
  {
  }

  /** Everything that left is below the watermark from then on. */
  predicate LeftForGood(b: Buffer, b': Buffer) {
    forall id :: id in b.pending && id !in b'.pending ==> IsStale(b', id)
  }

  /**
   * A fragment of a new frame that finds the buffer full: one older than every frame held is refused, and
   * any other makes the oldest of them go, for good. Either counts as one frame dropped.
   */
  lemma {:induction false} FullDropsOldest(capacity: nat, calls: seq<Call>, h: Header, payload: Bytes)
    requires var b := Run(capacity, calls).0; Validate(h).Ok? && !IsStale(b, h.frameId) && NeedsRoom(b, h.frameId)
    ensures var (b, id: nat) := (Run(capacity, calls).0, h.frameId); var (b', r) := Inserted(b, h, payload);
            && b'.dropped == b.dropped + 1 && LeftForGood(b, b')
            && ((forall k :: k in b.pending ==> k > id) ==>
                  r == Ok(None) && b'.pending == b.pending && b'.watermark == b.watermark)
            && (!(forall k :: k in b.pending ==> k > id) ==>
                  forall k :: k in b.pending ==> (k in b'.pending <==> exists j :: j in b.pending && j < k))
  {
    var b := Run(capacity, calls).0;
    FullHasKeys(b);
    var oldest := Least(b.pending.Keys);
    assert oldest in b.pending && forall k :: k in b.pending ==> k in b.pending.Keys && oldest <= k;
    MakeRoomOk(b, oldest);
  }

  /** Dropping what is older than `minId` leaves the rest, counts each, and is for good. */
  lemma {:induction false} DropsOlder(capacity: nat, calls: seq<Call>, minId: nat)
    ensures var b := Run(capacity, calls).0; var b' := DropOlderThan(b, minId);
            && LeftForGood(b, b') && b'.dropped == b.dropped + |b.pending| - |b'.pending|
            && (forall id :: id in b'.pending <==> id in b.pending && id >= minId)
            && (forall id :: id in b'.pending ==> b'.pending[id] == b.pending[id])
  {
    var b := Run(capacity, calls).0;
    var gone := set k | k in b.pending && k < minId;
    var b' := DropOlderThan(b, minId);
    assert b'.pending.Keys == b.pending.Keys - gone;
    assert |b.pending.Keys| == |b.pending.Keys - gone| + |gone| by {
      assert b.pending.Keys == (b.pending.Keys - gone) + gone;
    }
  }

  /** A fragment at or below the watermark changes nothing. */
  lemma {:induction false} StaleIgnored(capacity: nat, calls: seq<Call>, h: Header, payload: Bytes)
    requires IsStale(Run(capacity, calls).0, h.frameId) && Validate(h).Ok?
    ensures Run(capacity, calls + [Take(h, payload)]) == Run(capacity, calls)
  {
    assert (calls + [Take(h, payload)])[..|calls|] == calls;
  }

  // ---- exactness ----

  predicate PendingFaithful(sent: SentLog, id: nat, p: Pending)
    requires GoodLog(sent)
  {
    && id in sent && p.total == |Parts(sent[id])| == |p.fragments|
    && (forall i :: 0 <= i < |p.fragments| && p.fragments[i].Some? ==> p.fragments[i].value == Parts(sent[id])[i])
    && (p.received > 0 ==> p.isKey == sent[id].frame.isKey) && (p.received == 0 ==> !p.isKey)
    && p.pts == WirePts(sent[id].frame.ptsNs)
  }

  predicate BufferFaithful(sent: SentLog, b: Buffer)
    requires GoodLog(sent)
  {
    forall id :: id in b.pending ==> PendingFaithful(sent, id, b.pending[id])
  }

  lemma {:induction false} PutFaithful(sent: SentLog, p: Pending, h: Header, payload: Bytes)
    requires GoodLog(sent) && Genuine(sent, h, payload) && PendingFaithful(sent, h.frameId, p) && PendingOk(p)
    requires p.fragments[h.fragId].None?
    ensures var q := Put(p, h, payload);
            && PendingFaithful(sent, h.frameId, q)
            && q.received == Arrived(q.fragments)
            && (q.received == q.total ==>
                  Frame(h.frameId, q.isKey, q.pts, Assemble(q.fragments)) == Original(sent[h.frameId].frame))
  {
    var f := sent[h.frameId];
    var q := Put(p, h, payload);
    ArrivedStore(p.fragments, h.fragId, payload);
    if q.received == q.total {
      ArrivedAll(q.fragments);
      assert forall i :: 0 <= i < |q.fragments| ==> q.fragments[i] == Some(Parts(f)[i]);
      AssembleAll(q.fragments, Parts(f));
      ChunksJoin(f.frame.data, f.chunk);
    }
  }

  lemma {:induction false} AdmitFaithful(sent: SentLog, b: Buffer, h: Header, payload: Bytes)
    requires GoodLog(sent) && Genuine(sent, h, payload) && BufferOk(b) && BufferFaithful(sent, b)
    ensures var (b', r) := Admit(b, h, payload);
            && BufferFaithful(sent, b')
            && (r.Ok? && r.value.Some? ==> r.value.value == Original(sent[h.frameId].frame))
  {
    var id: nat := h.frameId;
    if id !in b.pending { ArrivedNone(EmptyTable(h.fragTotal)); }
    var p := if id in b.pending then b.pending[id] else Open(h);
    assert PendingFaithful(sent, id, p) && PendingOk(p);
    var b' := Admit(b, h, payload).0;
    if p.fragments[h.fragId].None? {
      PutFaithful(sent, p, h, payload);
      forall k | k in b'.pending ensures PendingFaithful(sent, k, b'.pending[k]) {
        if k != id { assert PendingFaithful(sent, k, b.pending[k]); }
      }
    }
  }

  lemma {:induction false} InsertFaithful(sent: SentLog, b: Buffer, h: Header, payload: Bytes)
    requires GoodLog(sent) && Genuine(sent, h, payload) && BufferOk(b) && BufferFaithful(sent, b)
    ensures var (b', r) := Inserted(b, h, payload);
            && BufferFaithful(sent, b')
            && (r.Ok? && r.value.Some? ==> r.value.value == Original(sent[h.frameId].frame))
  {
    if Validate(h).Ok? && !IsStale(b, h.frameId) {
      if NeedsRoom(b, h.frameId) {
        FullHasKeys(b);
        var oldest := Least(b.pending.Keys);
        MakeRoomOk(b, oldest);
        var c := MakeRoom(b, oldest);
        forall k | k in c.pending ensures PendingFaithful(sent, k, c.pending[k]) {
          assert PendingFaithful(sent, k, b.pending[k]);
        }
        AdmitFaithful(sent, c, h, payload);
      } else {
        AdmitFaithful(sent, b, h, payload);
      }
    }
  }

  lemma {:induction false} DropFaithful(sent: SentLog, b: Buffer, minId: nat)
    requires GoodLog(sent) && BufferFaithful(sent, b)
    ensures BufferFaithful(sent, DropOlderThan(b, minId))
  {
    forall k | k in DropOlderThan(b, minId).pending ensures PendingFaithful(sent, k, DropOlderThan(b, minId).pending[k]) {
      assert PendingFaithful(sent, k, b.pending[k]);
    }
  }

  /** Whatever order fragments of sent frames arrive in, what comes out is what was sent. */
  lemma {:induction false} RunExact(sent: SentLog, capacity: nat, calls: seq<Call>)
    requires GoodLog(sent)
    requires forall k :: 0 <= k < |calls| ==> calls[k].Take? ==> Genuine(sent, calls[k].h, calls[k].payload)
    ensures var (b, out) := Run(capacity, calls); BufferFaithful(sent, b) && FramesFaithful(sent, out)
  {
    if calls != [] {
      var before := calls[..|calls| - 1];
      assert forall k :: 0 <= k < |before| ==> before[k] == calls[k];
      RunExact(sent, capacity, before);
      var b := Run(capacity, before).0;
      match calls[|calls| - 1]
      case Take(h, payload) => InsertFaithful(sent, b, h, payload);
      case Drop(minId) => DropFaithful(sent, b, minId);
    }
  }

  // ---- the buffer as it runs ----

  class ReassemblyBuffer {
    const capacity: nat
    var pending: map<nat, Pending>
    var watermark: Option<nat>
    var dropped: nat
    /** Every call so far. */
    ghost var history: seq<Call>

    function State(): Buffer
      reads this
    {
      Buffer(capacity, pending, watermark, dropped)
    }

    ghost predicate Valid()
      reads this
    {
      exists c: nat :: NewBuffer(c).capacity == capacity && State() == Run(c, history).0
    }

    constructor (c: nat)
      ensures Valid() && history == [] && State() == NewBuffer(c)
    {
      capacity := if c == 0 then 1 else c;
      pending, watermark, dropped, history := map[], None, 0, [];
      new;
      assert NewBuffer(c).capacity == capacity && State() == Run(c, history).0;
    }

    method Retire(id: nat)
      modifies this`watermark
      ensures State() == Retired(old(State()), id)
    {
      watermark := Some(if watermark.Some? && watermark.value >= id then watermark.value else id);
    }

    /** Takes in one fragment, apart from recording the call. */
    method TakeIn(h: Header, payload: Bytes) returns (r: Result<Option<Frame>>)
      requires BufferOk(State())
      modifies this`pending, this`watermark, this`dropped
      ensures (State(), r) == Inserted(old(State()), h, payload)
    {
      if Validate(h).Err? {
        return Err(Validate(h).error);
      }
      if watermark.Some? && h.frameId <= watermark.value {
        return Ok(None);
      }
      if h.frameId !in pending && |pending| >= capacity {
        FullHasKeys(State());
        HasLeast(pending.Keys);
        var oldest: nat :| oldest in pending.Keys && IsLeast(oldest, pending.Keys);
        LeastIs(oldest, pending.Keys);
        if h.frameId < oldest {
          dropped := dropped + 1;
          return Ok(None);
        }
        MakeRoomOk(State(), oldest);
        pending := pending - {oldest};
        Retire(oldest);
        dropped := dropped + 1;
      }
      r := Complete(h, payload);
    }

    /** Stores a valid, current fragment and assembles the frame when it was the last one missing. */
    method Complete(h: Header, payload: Bytes) returns (r: Result<Option<Frame>>)
      requires BufferOk(State()) && h.fragId < h.fragTotal
      modifies this`pending, this`watermark
      ensures (State(), r) == Admit(old(State()), h, payload)
    {
      var id: nat := h.frameId;
      var p := if id in pending then pending[id] else Pending(h.fragTotal, 0, false, h.pts, EmptyTable(h.fragTotal));
      if p.total != h.fragTotal {
        return Err(FragmentTotalMismatch(id, p.total, h.fragTotal));
      }
      if p.fragments[h.fragId].Some? {
        return Err(DuplicateFragment(id, h.fragId));
      }
      p := p.(isKey := p.isKey || IsKeyframe(h));
      if h.fragId == 0 {
        p := p.(pts := h.pts);
      }
      p := p.(fragments := p.fragments[h.fragId := Some(payload)], received := p.received + 1);
      if p.received == p.total {
        pending := pending - {id};
        Retire(id);
        return Ok(Some(Frame(id, p.isKey, p.pts, Assemble(p.fragments))));
      }
      pending := pending[id := p];
      return Ok(None);
    }

    /** Takes in one fragment. */
    method Insert(h: Header, payload: Bytes) returns (r: Result<Option<Frame>>)
      requires Valid()
      modifies this
      ensures Valid() && history == old(history) + [Take(h, payload)]
      ensures BufferOk(old(State())) && (State(), r) == Inserted(old(State()), h, payload)
    {
      ghost var c: nat :| NewBuffer(c).capacity == capacity && State() == Run(c, history).0;
      ghost var calls := history + [Take(h, payload)];
      assert calls[..|history|] == history;
      r := TakeIn(h, payload);
      history := calls;
      assert State() == Run(c, history).0;
    }

    /** Abandons the given frames, one after another. */
    method Evict(ids: set<nat>)
      modifies this`pending, this`watermark, this`dropped
      ensures State() == DropEach(old(State()), ids)
    {
      ghost var start := State();
      var left := ids;
      while left != {}
        invariant left <= ids
        invariant State() == DropEach(start, ids - left)
        decreases left
      {
        var id: nat :| id in left;
        DropOneMore(start, ids - left, id);
        assert ids - (left - {id}) == (ids - left) + {id};
        pending := pending - {id};
        Retire(id);
        dropped := dropped + 1;
        left := left - {id};
      }
      assert ids - left == ids;
    }

    /** Forgets incomplete frames older than `minId`. */
    method DropOlder(minId: nat)
      requires Valid()
      modifies this
      ensures Valid() && history == old(history) + [Drop(minId)]
      ensures State() == DropOlderThan(old(State()), minId)
    {
      ghost var c: nat :| NewBuffer(c).capacity == capacity && State() == Run(c, history).0;
      ghost var calls := history + [Drop(minId)];
      assert calls[..|history|] == history;
      Evict(set k | k in pending && k < minId);
      history := calls;
      assert State() == Run(c, history).0;
    }
  }

  /** The frames `ids` evicted, in whatever order. */
  ghost function DropEach(b: Buffer, ids: set<nat>): Buffer {
    if ids == {} then b
    else b.(pending := b.pending - ids, dropped := b.dropped + |ids|, watermark := RaisedBy(b.watermark, ids))
  }

  lemma {:induction false} DropOneMore(b: Buffer, ids: set<nat>, id: nat)
    requires id !in ids
    ensures DropEach(b, ids + {id}) ==
              Retired(DropEach(b, ids).(pending := DropEach(b, ids).pending - {id},
                                       dropped := DropEach(b, ids).dropped + 1), id)
  {
    assert b.pending - (ids + {id}) == (b.pending - ids) - {id};
    assert |ids + {id}| == |ids| + 1;
  }
}
