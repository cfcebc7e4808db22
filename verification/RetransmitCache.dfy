/** The host's cache of recently sent datagrams, kept to answer retransmit requests and tail probes. */
module RetransmitCache {
  import opened Prelude

  /** One second, in nanoseconds. */
  const RETAIN_FOR: nat := 1_000_000_000
  const RETAIN_BYTES: nat := 8 * 1024 * 1024

  datatype SentFrame = SentFrame(
    frameId: nat,
    sentAt: nat,
    datagrams: seq<Bytes>,
    bytes: nat,
    resentAt: seq<Option<nat>>)

  datatype Cache = Cache(frames: seq<SentFrame>, resent: nat, unavailable: nat)

  const EMPTY: Cache := Cache([], 0, 0)

  function Size(datagrams: seq<Bytes>): nat {
    if datagrams == [] then 0 else |datagrams[0]| + Size(datagrams[1..])
  }

  function TotalBytes(frames: seq<SentFrame>): nat {
    if frames == [] then 0 else frames[0].bytes + TotalBytes(frames[1..])
  }

  function NewFrame(frameId: nat, datagrams: seq<Bytes>, now: nat): SentFrame {
    SentFrame(frameId, now, datagrams, Size(datagrams), seq(|datagrams|, i => None))
  }

  predicate Expired(f: SentFrame, now: nat) {
    Since(now, f.sentAt) > RETAIN_FOR
  }

  /** Lets go of the oldest frames while one is expired or too many bytes are held, but never of the newest. */
  function Trim(frames: seq<SentFrame>, now: nat): seq<SentFrame> {
    if |frames| <= 1 || (!Expired(frames[0], now) && TotalBytes(frames) <= RETAIN_BYTES) then frames
    else Trim(frames[1..], now)
  }

  function Add(c: Cache, frameId: nat, datagrams: seq<Bytes>, now: nat): Cache {
    c.(frames := Trim(c.frames + [NewFrame(frameId, datagrams, now)], now))
  }

  /** The newest frame held under an id. */
  function Newest(frames: seq<SentFrame>, frameId: nat): (r: Option<nat>)
    ensures r.Some? ==> r.value < |frames| && frames[r.value].frameId == frameId
    ensures r.Some? ==> forall j :: r.value < j < |frames| ==> frames[j].frameId != frameId
    ensures r.None? ==> forall j :: 0 <= j < |frames| ==> frames[j].frameId != frameId
  {
    if frames == [] then None
    else if frames[|frames| - 1].frameId == frameId then Some(|frames| - 1)
    else Newest(frames[..|frames| - 1], frameId)
  }

  predicate Suppressed(f: SentFrame, idx: nat, now: nat, minGap: nat)
    requires idx < |f.resentAt|
  {
    f.resentAt[idx].Some? && Since(now, f.resentAt[idx].value) < minGap
  }

  /** The wanted datagrams of a frame, one index after another: those to resend, and the frame after. */
  function Resend(f: SentFrame, wanted: seq<nat>, now: nat, minGap: nat): (SentFrame, seq<nat>)
    decreases |wanted|
  {
    if wanted == [] then (f, [])
    else
      var i := wanted[0];
      if i < |f.datagrams| && i < |f.resentAt| && !Suppressed(f, i, now, minGap) then
        var (f', rest) := Resend(f.(resentAt := f.resentAt[i := Some(now)]), wanted[1..], now, minGap);
        (f', [i] + rest)
      else
        Resend(f, wanted[1..], now, minGap)
  }

  function Wanted(f: SentFrame, fragIds: seq<nat>): seq<nat> {
    if fragIds == [] then seq(|f.datagrams|, i => i) else fragIds
  }

  /** Which datagrams of which held frame a request gets: the frame's position and the indices. */
  datatype Answer = Unavailable | Answer(at: nat, indices: seq<nat>)

  function Take(c: Cache, frameId: nat, fragIds: seq<nat>, now: nat, minGap: nat): (r: (Cache, Answer))
    ensures r.1.Answer? ==> r.1.at < |c.frames| && c.frames[r.1.at].frameId == frameId
  {
    var at := Newest(c.frames, frameId);
    if at.None? || Expired(c.frames[at.value], now) then (c.(unavailable := c.unavailable + 1), Unavailable)
    else
      var f := c.frames[at.value];
      var (f', indices) := Resend(f, Wanted(f, fragIds), now, minGap);
      (c.(frames := c.frames[at.value := f'], resent := c.resent + |indices|), Answer(at.value, indices))
  }

  /** The last datagram of the newest frame. */
  function Probe(c: Cache): Option<Bytes> {
    if c.frames == [] then None
    else
      var ds := c.frames[|c.frames| - 1].datagrams;
      if ds == [] then None else Some(ds[|ds| - 1])
  }

  // ---- what a resend pass does ----

  /** A pass names existing indices, keeps the frame but for its resend times, and stamps exactly what it returns. */
  lemma {:induction false} ResendStamps(f: SentFrame, wanted: seq<nat>, now: nat, minGap: nat)
    requires |f.resentAt| == |f.datagrams|
    ensures var (f', out) := Resend(f, wanted, now, minGap);
            && f' == f.(resentAt := f'.resentAt) && |f'.resentAt| == |f.datagrams|
            && (forall k :: 0 <= k < |out| ==> out[k] < |f.datagrams| && out[k] in wanted)
            && (forall i :: 0 <= i < |f.resentAt| ==>
                  f'.resentAt[i] == if i in out then Some(now) else f.resentAt[i])
            && (forall i :: 0 <= i < |f.resentAt| && i in out ==> !Suppressed(f, i, now, minGap))
    decreases |wanted|
  {
    if wanted != [] {
      var i := wanted[0];
      if i < |f.datagrams| && !Suppressed(f, i, now, minGap) {
        var g := f.(resentAt := f.resentAt[i := Some(now)]);
        ResendStamps(g, wanted[1..], now, minGap);
      } else {
        ResendStamps(f, wanted[1..], now, minGap);
      }
    }
  }

  /** With nothing suppressed and no index twice, everything asked for that exists comes back, in order. */
  lemma {:induction false} ResendAll(f: SentFrame, wanted: seq<nat>, now: nat, minGap: nat)
    requires |f.resentAt| == |f.datagrams|
    requires forall k :: 0 <= k < |wanted| ==> wanted[k] < |f.datagrams| && !Suppressed(f, wanted[k], now, minGap)
    requires forall j, k :: 0 <= j < k < |wanted| ==> wanted[j] != wanted[k]
    ensures Resend(f, wanted, now, minGap).1 == wanted
    decreases |wanted|
  {
    if wanted != [] {
      var g := f.(resentAt := f.resentAt[wanted[0] := Some(now)]);
      ResendAll(g, wanted[1..], now, minGap);
    }
  }

  predicate Ascending(ids: seq<nat>) {
    forall j, k :: 0 <= j < k < |ids| ==> ids[j] < ids[k]
  }

  /** A pass over ascending indices returns them in order. */
  lemma {:induction false} ResendInOrder(f: SentFrame, wanted: seq<nat>, now: nat, minGap: nat)
    requires |f.resentAt| == |f.datagrams| && Ascending(wanted)
    ensures Ascending(Resend(f, wanted, now, minGap).1)
    decreases |wanted|
  {
    if wanted != [] {
      var i := wanted[0];
      var rest := wanted[1..];
      if i < |f.datagrams| && !Suppressed(f, i, now, minGap) {
        var g := f.(resentAt := f.resentAt[i := Some(now)]);
        ResendInOrder(g, rest, now, minGap);
        ResendStamps(g, rest, now, minGap);
      } else {
        ResendInOrder(f, rest, now, minGap);
      }
    }
  }

  /** Datagram `i` exists and was not returned within `minGap`. */
  predicate Resendable(f: SentFrame, i: nat, now: nat, minGap: nat) {
    i < |f.datagrams| && i < |f.resentAt| && (f.resentAt[i].Some? ==> now >= f.resentAt[i].value + minGap || minGap == 0)
  }

  /** A pass over any indices returns exactly those of them. */
  lemma {:induction false} ResendExactly(f: SentFrame, wanted: seq<nat>, now: nat, minGap: nat, i: nat)
    requires |f.resentAt| == |f.datagrams|
    ensures i in Resend(f, wanted, now, minGap).1 <==> i in wanted && Resendable(f, i, now, minGap)
    decreases |wanted|
  {
    if wanted != [] {
      var first := wanted[0];
      var rest := wanted[1..];
      assert i in wanted <==> i == first || i in rest;
      if first < |f.datagrams| && !Suppressed(f, first, now, minGap) {
        var g := f.(resentAt := f.resentAt[first := Some(now)]);
        ResendExactly(g, rest, now, minGap, i);
      } else {
        ResendExactly(f, rest, now, minGap, i);
      }
    }
  }

  // ---- retention ----

  /** Everything that is in `frames`, end to end. */
  function Content(frames: seq<SentFrame>): Bytes {
    if frames == [] then [] else Concat(frames[0].datagrams) + Content(frames[1..])
  }

  /** Every frame was sent within the last second, and together they take at most 8 MiB. */
  predicate Fits(frames: seq<SentFrame>, now: nat) {
    (forall i :: 0 <= i < |frames| ==> now <= frames[i].sentAt + 1_000_000_000) && |Content(frames)| <= 8_388_608
  }

  lemma {:induction false} SizeIsLength(datagrams: seq<Bytes>)
    ensures Size(datagrams) == |Concat(datagrams)|
  {
    if datagrams != [] { SizeIsLength(datagrams[1..]); }
  }

  /** Each frame records the size of its datagrams. */
  predicate Measured(frames: seq<SentFrame>) {
    forall i :: 0 <= i < |frames| ==> frames[i].bytes == Size(frames[i].datagrams)
  }

  lemma {:induction false} TotalIsLength(frames: seq<SentFrame>)
    requires Measured(frames)
    ensures TotalBytes(frames) == |Content(frames)|
  {
    if frames != [] {
      SizeIsLength(frames[0].datagrams);
      TotalIsLength(frames[1..]);
    }
  }

  /** `held` is the longest suffix of `all` that is unexpired and within the byte bound, or the newest alone. */
  predicate LongestFitting(all: seq<SentFrame>, held: seq<SentFrame>, now: nat) {
    && |held| <= |all| && held == all[|all| - |held|..]
    && (all != [] ==> held != [])
    && (|held| > 1 ==> Fits(held, now))
    && (forall k :: 0 <= k < |all| - |held| ==> !Fits(all[k..], now))
  }

  predicate Chronological(frames: seq<SentFrame>, now: nat) {
    && (forall i, j :: 0 <= i < j < |frames| ==> frames[i].sentAt <= frames[j].sentAt)
    && (forall i :: 0 <= i < |frames| ==> frames[i].sentAt <= now)
  }

  lemma {:induction false} ContentAppend(a: seq<SentFrame>, b: seq<SentFrame>)
    ensures Content(a + b) == Content(a) + Content(b)
  {
    if a == [] {
      assert a + b == b;
    } else {
      assert (a + b)[1..] == a[1..] + b;
      ContentAppend(a[1..], b);
    }
  }

  /** Trimming keeps the longest suffix that fits. */
  lemma {:induction false} TrimLongest(frames: seq<SentFrame>, now: nat)
    requires Chronological(frames, now) && Measured(frames)
    ensures LongestFitting(frames, Trim(frames, now), now)
  {
    TotalIsLength(frames);
    if |frames| <= 1 || (!Expired(frames[0], now) && TotalBytes(frames) <= RETAIN_BYTES) {
      assert frames[0..] == frames;
      forall i | 0 <= i < |frames| && |frames| > 1 ensures !Expired(frames[i], now) {
        assert frames[0].sentAt <= frames[i].sentAt;
      }
    } else {
      TrimLongest(frames[1..], now);
      var held := Trim(frames[1..], now);
      assert held == frames[1..][|frames| - 1 - |held|..] == frames[|frames| - |held|..];
      forall k | 0 <= k < |frames| - |held| ensures !Fits(frames[k..], now) {
        if k == 0 {
          assert frames[0..] == frames;
        } else {
          assert frames[1..][k - 1..] == frames[k..];
        }
      }
    }
  }

  /** What did not fit before does not fit after one more frame, later. */
  lemma {:induction false} StillDoesNotFit(old_: seq<SentFrame>, f: SentFrame, before: nat, now: nat)
    requires before <= now && !Fits(old_, before)
    requires forall i :: 0 <= i < |old_| ==> old_[i].sentAt <= before
    ensures !Fits(old_ + [f], now)
  {
    ContentAppend(old_, [f]);
    if !(forall i :: 0 <= i < |old_| ==> before <= old_[i].sentAt + 1_000_000_000) {
      var i :| 0 <= i < |old_| && before > old_[i].sentAt + 1_000_000_000;
      assert (old_ + [f])[i] == old_[i];
    }
  }

  /** The cache after sending the frames of `log`, each at its time. */
  function SendAll(log: seq<SentFrame>): seq<SentFrame> {
    if log == [] then []
    else Trim(SendAll(log[..|log| - 1]) + [log[|log| - 1]], log[|log| - 1].sentAt)
  }

  lemma {:induction false} ChronologicalPart(frames: seq<SentFrame>, lo: nat, hi: nat, now: nat)
    requires Chronological(frames, now) && lo <= hi <= |frames|
    ensures Chronological(frames[lo..hi], now)
  {
  }

  /** A longest fitting suffix of a suffix, when nothing longer fits either. */
  lemma {:induction false} LongestExtends(all: seq<SentFrame>, cut: nat, kept: seq<SentFrame>, now: nat)
    requires cut < |all| && LongestFitting(all[cut..], kept, now)
    requires forall k :: 0 <= k < cut ==> !Fits(all[k..], now)
    ensures LongestFitting(all, kept, now)
  {
    var mid := all[cut..];
    assert kept == mid[|mid| - |kept|..] == all[|all| - |kept|..];
    forall k | 0 <= k < |all| - |kept| ensures !Fits(all[k..], now) {
      if k >= cut {
        assert mid[k - cut..] == all[k..];
      }
    }
  }

  lemma {:induction false} RetentionStep(earlier: seq<SentFrame>, held: seq<SentFrame>, last: SentFrame, before: nat)
    requires LongestFitting(earlier, held, before) && before <= last.sentAt
    requires forall i :: 0 <= i < |earlier| ==> earlier[i].sentAt <= before
    requires Chronological(earlier + [last], last.sentAt) && Measured(earlier + [last])
    ensures LongestFitting(earlier + [last], Trim(held + [last], last.sentAt), last.sentAt)
  {
    var log := earlier + [last];
    var cut := |earlier| - |held|;
    assert held + [last] == log[cut..];
    ChronologicalPart(log, cut, |log|, last.sentAt);
    assert log[cut..|log|] == log[cut..];
    TrimLongest(log[cut..], last.sentAt);
    forall k | 0 <= k < cut ensures !Fits(log[k..], last.sentAt) {
      StillDoesNotFit(earlier[k..], last, before, last.sentAt);
      assert earlier[k..] + [last] == log[k..];
    }
    LongestExtends(log, cut, Trim(held + [last], last.sentAt), last.sentAt);
  }

  /**
   * Retention: with insert times that never go back, what is held after each insert is exactly the
   * longest suffix of everything ever sent that is unexpired and within the byte bound, or the
   * newest frame alone.
   */
  lemma {:induction false} Retention(log: seq<SentFrame>)
    requires log != [] && Chronological(log, log[|log| - 1].sentAt) && Measured(log)
    ensures LongestFitting(log, SendAll(log), log[|log| - 1].sentAt)
  {
    var last := log[|log| - 1];
    var earlier := log[..|log| - 1];
    assert log == earlier + [last];
    if earlier == [] {
      RetentionStep([], [], last, 0);
    } else {
      var before := earlier[|earlier| - 1].sentAt;
      EarlierInOrder(log);
      Retention(earlier);
      RetentionStep(earlier, SendAll(earlier), last, before);
    }
  }

  lemma {:induction false} EarlierInOrder(log: seq<SentFrame>)
    requires |log| > 1 && Chronological(log, log[|log| - 1].sentAt)
    ensures var earlier := log[..|log| - 1]; var before := earlier[|earlier| - 1].sentAt;
            Chronological(earlier, before) && before <= log[|log| - 1].sentAt
  {
    var earlier := log[..|log| - 1];
    forall i | 0 <= i < |earlier| ensures earlier[i].sentAt <= earlier[|earlier| - 1].sentAt {
      assert earlier[i] == log[i] && earlier[|earlier| - 1] == log[|log| - 2];
    }
    assert forall i :: 0 <= i < |earlier| ==> earlier[i] == log[i];
  }

  // ---- runs of sends and requests ----

  datatype Op =
    | Send(frameId: nat, datagrams: seq<Bytes>, now: nat)
    | Nack(frameId: nat, fragIds: seq<nat>, now: nat, minGap: nat)

  /** One datagram handed back: of the `serial`-th frame sent, at `now`, for a request with `minGap`. */
  datatype Reply = Reply(serial: nat, index: nat, now: nat, minGap: nat)

  datatype Run = Run(cache: Cache, log: seq<SentFrame>, replies: seq<Reply>)

  function Bare(frames: seq<SentFrame>): (r: seq<SentFrame>)
    ensures |r| == |frames|
  {
    seq(|frames|, i requires 0 <= i < |frames| =>
      frames[i].(resentAt := seq(|frames[i].datagrams|, j => None)))
  }

  function Replies(serial: nat, indices: seq<nat>, now: nat, minGap: nat): seq<Reply> {
    seq(|indices|, k requires 0 <= k < |indices| => Reply(serial, indices[k], now, minGap))
  }

  function Apply(r: Run, op: Op): Run
    requires |r.cache.frames| <= |r.log|
  {
    match op
    case Send(id, datagrams, now) =>
      Run(Add(r.cache, id, datagrams, now), r.log + [NewFrame(id, datagrams, now)], r.replies)
    case Nack(id, fragIds, now, minGap) =>
      var (c, a) := Take(r.cache, id, fragIds, now, minGap);
      if a.Unavailable? then r.(cache := c)
      else Run(c, r.log, r.replies + Replies(|r.log| - |r.cache.frames| + a.at, a.indices, now, minGap))
  }

  /** When a datagram was last handed back. */
  function LastReply(replies: seq<Reply>, serial: nat, index: nat): Option<nat> {
    if replies == [] then None
    else
      var last := replies[|replies| - 1];
      if last.serial == serial && last.index == index then Some(last.now)
      else LastReply(replies[..|replies| - 1], serial, index)
  }

  /** No datagram was handed back within the later request's gap of the time before. */
  predicate Spaced(replies: seq<Reply>) {
    replies == []
    || (var front, last := replies[..|replies| - 1], replies[|replies| - 1];
        var at := LastReply(front, last.serial, last.index);
        Spaced(front) && (at.Some? ==> Since(last.now, at.value) >= last.minGap))
  }

  /** The frames held, whatever their resend times, are what sending alone would have kept. */
  predicate RunOk(r: Run) {
    && |r.cache.frames| <= |r.log| && Measured(r.log)
    && Bare(r.cache.frames) == SendAll(r.log)
    && r.cache.resent == |r.replies|
    && Spaced(r.replies)
    && (forall p :: 0 <= p < |r.cache.frames| ==>
          StampsMatch(r.cache.frames[p], r.replies, |r.log| - |r.cache.frames| + p))
    && (forall k :: 0 <= k < |r.replies| ==> r.replies[k].serial < |r.log|)
  }

  /** A frame's resend times are those of its datagrams' last returns. */
  predicate StampsMatch(f: SentFrame, replies: seq<Reply>, serial: nat) {
    && |f.resentAt| == |f.datagrams|
    && forall i :: 0 <= i < |f.resentAt| ==> f.resentAt[i] == LastReply(replies, serial, i)
  }

  function RunAll(ops: seq<Op>): (r: Run)
    ensures RunOk(r)
  {
    if ops == [] then
      assert Bare([]) == [];
      Run(EMPTY, [], [])
    else
      var r := RunAll(ops[..|ops| - 1]);
      ApplyOk(r, ops[|ops| - 1]);
      Apply(r, ops[|ops| - 1])
  }

  lemma {:induction false} BareAppend(frames: seq<SentFrame>, f: SentFrame)
    ensures Bare(frames + [f]) == Bare(frames) + Bare([f])
  {
  }

  lemma {:induction false} BareTail(frames: seq<SentFrame>)
    requires frames != []
    ensures Bare(frames)[1..] == Bare(frames[1..])
  {
  }

  lemma {:induction false} TotalBytesBare(frames: seq<SentFrame>)
    ensures TotalBytes(Bare(frames)) == TotalBytes(frames)
  {
    if frames != [] {
      TotalBytesBare(frames[1..]);
      BareTail(frames);
    }
  }

  /** Trimming looks only at ages and sizes. */
  lemma {:induction false} TrimBare(frames: seq<SentFrame>, now: nat)
    ensures Bare(Trim(frames, now)) == Trim(Bare(frames), now)
  {
    TotalBytesBare(frames);
    if |frames| > 1 {
      TrimBare(frames[1..], now);
      BareTail(frames);
    }
  }

  lemma {:induction false} SuffixOfTail<T>(s: seq<T>, n: nat)
    requires n < |s|
    ensures s[1..][|s| - 1 - n..] == s[|s| - n..]
  {
  }

  /** Trimming keeps a suffix. */
  lemma {:induction false} TrimIsSuffix(frames: seq<SentFrame>, now: nat)
    ensures |Trim(frames, now)| <= |frames| && Trim(frames, now) == frames[|frames| - |Trim(frames, now)|..]
  {
    if Trim(frames, now) == frames {
      assert frames[0..] == frames;
    } else {
      TrimIsSuffix(frames[1..], now);
      SuffixOfTail(frames, |Trim(frames, now)|);
    }
  }

  lemma {:induction false} NeverReplied(replies: seq<Reply>, serial: nat, index: nat)
    requires forall k :: 0 <= k < |replies| ==> replies[k].serial != serial
    ensures LastReply(replies, serial, index) == None
  {
    if replies != [] { NeverReplied(replies[..|replies| - 1], serial, index); }
  }

  /** The stamps of the frames held still match, and a frame never resent matches no reply. */
  lemma {:induction false} SendStamps(r: Run, f: SentFrame)
    requires RunOk(r) && f.resentAt == seq(|f.datagrams|, i => None)
    ensures var all := r.cache.frames + [f];
            forall q :: 0 <= q < |all| ==> StampsMatch(all[q], r.replies, |r.log| - |r.cache.frames| + q)
  {
    var all := r.cache.frames + [f];
    forall q | 0 <= q < |all| ensures StampsMatch(all[q], r.replies, |r.log| - |r.cache.frames| + q) {
      if q < |r.cache.frames| {
        assert StampsMatch(r.cache.frames[q], r.replies, |r.log| - |r.cache.frames| + q);
      } else {
        forall i | 0 <= i < |f.datagrams| ensures LastReply(r.replies, |r.log|, i) == None {
          NeverReplied(r.replies, |r.log|, i);
        }
      }
    }
  }

  lemma {:induction false} SendOk(r: Run, id: nat, datagrams: seq<Bytes>, now: nat)
    requires RunOk(r)
    ensures RunOk(Apply(r, Send(id, datagrams, now)))
  {
    var f := NewFrame(id, datagrams, now);
    var all := r.cache.frames + [f];
    var r' := Apply(r, Send(id, datagrams, now));
    SendBare(r.cache.frames, r.log, id, datagrams, now);
    TrimIsSuffix(all, now);
    SendStamps(r, f);
    SuffixStamps(all, r'.cache.frames, r.replies, |r'.log|);
  }

  lemma {:induction false} SendBare(frames: seq<SentFrame>, log: seq<SentFrame>, id: nat, datagrams: seq<Bytes>, now: nat)
    requires Bare(frames) == SendAll(log)
    ensures var f := NewFrame(id, datagrams, now); Bare(Trim(frames + [f], now)) == SendAll(log + [f])
  {
    var f := NewFrame(id, datagrams, now);
    BareAppend(frames, f);
    assert Bare([f]) == [f];
    TrimBare(frames + [f], now);
    assert (log + [f])[..|log|] == log;
  }

  /** Letting the oldest frames go leaves the others' stamps matching. */
  lemma {:induction false} SuffixStamps(all: seq<SentFrame>, kept: seq<SentFrame>, replies: seq<Reply>, n: nat)
    requires |kept| <= |all| <= n && kept == all[|all| - |kept|..]
    requires forall q :: 0 <= q < |all| ==> StampsMatch(all[q], replies, n - |all| + q)
    ensures forall p :: 0 <= p < |kept| ==> StampsMatch(kept[p], replies, n - |kept| + p)
  {
    forall p | 0 <= p < |kept| ensures StampsMatch(kept[p], replies, n - |kept| + p) {
      var q := |all| - |kept| + p;
      assert kept[p] == all[q] && n - |all| + q == n - |kept| + p;
    }
  }

  /** One pass over the wanted datagrams of one frame keeps the record straight. */
  lemma {:induction false} ResendOk(f: SentFrame, wanted: seq<nat>, now: nat, minGap: nat, replies: seq<Reply>,
                                    serial: nat)
    requires Spaced(replies) && StampsMatch(f, replies, serial)
    ensures var (f', out) := Resend(f, wanted, now, minGap); var after := replies + Replies(serial, out, now, minGap);
            && Spaced(after) && StampsMatch(f', after, serial)
            && (forall s, i :: s != serial ==> LastReply(after, s, i) == LastReply(replies, s, i))
    decreases |wanted|
  {
    if wanted == [] {
      assert replies + Replies(serial, [], now, minGap) == replies;
    } else {
      var i := wanted[0];
      if i < |f.datagrams| && i < |f.resentAt| && !Suppressed(f, i, now, minGap) {
        var g := f.(resentAt := f.resentAt[i := Some(now)]);
        var entry := Reply(serial, i, now, minGap);
        var mid := replies + [entry];
        assert mid[..|replies|] == replies;
        ResendOk(g, wanted[1..], now, minGap, mid, serial);
        var rest := Resend(g, wanted[1..], now, minGap).1;
        assert replies + Replies(serial, [i] + rest, now, minGap) == mid + Replies(serial, rest, now, minGap);
      } else {
        ResendOk(f, wanted[1..], now, minGap, replies, serial);
      }
    }
  }

  lemma {:induction false} SameBare(frames: seq<SentFrame>, at: nat, f: SentFrame)
    requires at < |frames| && f == frames[at].(resentAt := f.resentAt)
    ensures Bare(frames[at := f]) == Bare(frames)
  {
  }

  /** The frame at `at` restamped, everything else as it was. */
  lemma {:induction false} RestampOk(r: Run, at: nat, f: SentFrame, after: seq<Reply>, unavailable: nat)
    requires RunOk(r) && at < |r.cache.frames|
    requires f == r.cache.frames[at].(resentAt := f.resentAt)
    requires Spaced(after) && |after| >= |r.replies|
    requires StampsMatch(f, after, |r.log| - |r.cache.frames| + at)
    requires forall k :: 0 <= k < |after| ==> after[k].serial < |r.log|
    requires forall s, i :: s != |r.log| - |r.cache.frames| + at ==> LastReply(after, s, i) == LastReply(r.replies, s, i)
    ensures RunOk(Run(Cache(r.cache.frames[at := f], |after|, unavailable), r.log, after))
  {
    var base := |r.log| - |r.cache.frames|;
    SameBare(r.cache.frames, at, f);
    var frames := r.cache.frames[at := f];
    forall p | 0 <= p < |frames| ensures StampsMatch(frames[p], after, base + p) {
      if p != at {
        OtherStamps(r.cache.frames[p], r.replies, after, base + p, base + at);
      }
    }
  }

  /** The run once the frame at `at` has had a resend pass. */
  function Answered(r: Run, at: nat, wanted: seq<nat>, now: nat, minGap: nat): Run
    requires at < |r.cache.frames| <= |r.log|
  {
    var (f, out) := Resend(r.cache.frames[at], wanted, now, minGap);
    Run(Cache(r.cache.frames[at := f], r.cache.resent + |out|, r.cache.unavailable), r.log,
        r.replies + Replies(|r.log| - |r.cache.frames| + at, out, now, minGap))
  }

  lemma {:induction false} AnsweredOk(r: Run, at: nat, wanted: seq<nat>, now: nat, minGap: nat)
    requires RunOk(r) && at < |r.cache.frames|
    ensures RunOk(Answered(r, at, wanted, now, minGap))
  {
    var f := r.cache.frames[at];
    var serial := |r.log| - |r.cache.frames| + at;
    assert StampsMatch(f, r.replies, serial);
    ResendOk(f, wanted, now, minGap, r.replies, serial);
    ResendStamps(f, wanted, now, minGap);
    var (f', out) := Resend(f, wanted, now, minGap);
    RestampOk(r, at, f', r.replies + Replies(serial, out, now, minGap), r.cache.unavailable);
  }

  lemma {:induction false} NackOk(r: Run, id: nat, fragIds: seq<nat>, now: nat, minGap: nat)
    requires RunOk(r)
    ensures RunOk(Apply(r, Nack(id, fragIds, now, minGap)))
  {
    var a := Take(r.cache, id, fragIds, now, minGap).1;
    if a.Answer? {
      var wanted := Wanted(r.cache.frames[a.at], fragIds);
      AnsweredOk(r, a.at, wanted, now, minGap);
      assert Apply(r, Nack(id, fragIds, now, minGap)) == Answered(r, a.at, wanted, now, minGap);
    }
  }

  lemma {:induction false} OtherStamps(f: SentFrame, before: seq<Reply>, after: seq<Reply>, mine: nat, serial: nat)
    requires StampsMatch(f, before, mine) && mine != serial
    requires forall s, i :: s != serial ==> LastReply(after, s, i) == LastReply(before, s, i)
    ensures StampsMatch(f, after, mine)
  {
  }

  lemma {:induction false} ApplyOk(r: Run, op: Op)
    requires RunOk(r)
    ensures RunOk(Apply(r, op))
  {
    match op
    case Send(id, datagrams, now) => SendOk(r, id, datagrams, now);
    case Nack(id, fragIds, now, minGap) => NackOk(r, id, fragIds, now, minGap);
  }

  /**
   * Over any run of sends and requests: the resend count is the number of datagrams handed back,
   * and none was handed back again within the later request's gap.
   */
  lemma {:induction false} ResendsSpacedAndCounted(ops: seq<Op>)
    ensures RunAll(ops).cache.resent == |RunAll(ops).replies|
    ensures Spaced(RunAll(ops).replies)
  {
  }

  /** The frame of the log a request for `id` is answered from: the last sent under it, if it is still held. */
  predicate AnswersFrom(r: Run, id: nat, serial: nat)
    requires |r.cache.frames| <= |r.log|
  {
    && |r.log| - |r.cache.frames| <= serial < |r.log| && r.log[serial].frameId == id
    && forall k :: serial < k < |r.log| ==> r.log[k].frameId != id
  }

  lemma {:induction false} HeldIsLogged(r: Run, p: nat)
    requires RunOk(r) && p < |r.cache.frames|
    ensures var (f, g) := (r.cache.frames[p], r.log[|r.log| - |r.cache.frames| + p]);
            f.frameId == g.frameId && f.sentAt == g.sentAt && f.datagrams == g.datagrams
  {
    SendAllIsSuffix(r.log);
    assert Bare(r.cache.frames)[p] == SendAll(r.log)[p];
  }

  lemma {:induction false} SendAllIsSuffix(log: seq<SentFrame>)
    ensures |SendAll(log)| <= |log| && SendAll(log) == log[|log| - |SendAll(log)|..]
  {
    if log != [] {
      var n := |log| - 1;
      SendAllIsSuffix(log[..n]);
      TrimIsSuffix(SendAll(log[..n]) + [log[n]], log[n].sentAt);
      assert SendAll(log[..n]) + [log[n]] == log[n - |SendAll(log[..n])|..];
    }
  }

  lemma {:induction false} NewestAnswers(r: Run, id: nat, serial: nat)
    requires RunOk(r) && AnswersFrom(r, id, serial)
    ensures Newest(r.cache.frames, id) == Some(serial - (|r.log| - |r.cache.frames|))
  {
    var base := |r.log| - |r.cache.frames|;
    forall p | 0 <= p < |r.cache.frames| ensures r.cache.frames[p].frameId == r.log[base + p].frameId {
      HeldIsLogged(r, p);
    }
    assert r.cache.frames[serial - base].frameId == id;
  }

  lemma {:induction false} NewestIsSent(r: Run, id: nat)
    requires RunOk(r) && Newest(r.cache.frames, id).Some?
    ensures exists serial: nat :: AnswersFrom(r, id, serial)
  {
    var base := |r.log| - |r.cache.frames|;
    forall p | 0 <= p < |r.cache.frames| ensures r.cache.frames[p].frameId == r.log[base + p].frameId {
      HeldIsLogged(r, p);
    }
    var p := Newest(r.cache.frames, id).value;
    forall k | base + p < k < |r.log| ensures r.log[k].frameId != id {
      assert r.cache.frames[k - base].frameId == r.log[base + (k - base)].frameId;
    }
    assert AnswersFrom(r, id, base + p);
  }

  lemma {:induction false} TakeFrom(r: Run, id: nat, fragIds: seq<nat>, now: nat, minGap: nat, serial: nat)
    requires RunOk(r) && AnswersFrom(r, id, serial)
    ensures var a := Take(r.cache, id, fragIds, now, minGap).1;
            && (a.Answer? <==> now <= r.log[serial].sentAt + 1_000_000_000)
            && (a.Answer? ==>
                  a.at == serial - (|r.log| - |r.cache.frames|) && AreDue(r, serial, fragIds, now, minGap, a.indices))
  {
    NewestAnswers(r, id, serial);
    var p := serial - (|r.log| - |r.cache.frames|);
    HeldIsLogged(r, p);
    AnswerDue(r, p, serial, fragIds, now, minGap);
  }

  /**
   * After any run, a request is answered from the last frame sent under its id, if that one is still held
   * and no more than a second old. It gets those datagrams it asks for that were never handed back, or
   * not within `minGap`, and in order if it asks in order.
   */
  lemma {:induction false} AnswerIs(ops: seq<Op>, id: nat, fragIds: seq<nat>, now: nat, minGap: nat, serial: nat)
    requires AnswersFrom(RunAll(ops), id, serial)
    ensures var (r, a) := (RunAll(ops), Take(RunAll(ops).cache, id, fragIds, now, minGap).1);
            && (a.Answer? <==> now <= r.log[serial].sentAt + 1_000_000_000)
            && (a.Answer? ==>
                  a.at == serial - (|r.log| - |r.cache.frames|) && AreDue(r, serial, fragIds, now, minGap, a.indices))
  {
    TakeFrom(RunAll(ops), id, fragIds, now, minGap, serial);
  }

  /** With no such frame held there is no answer. */
  lemma {:induction false} UnavailableIfNotHeld(ops: seq<Op>, id: nat, fragIds: seq<nat>, now: nat, minGap: nat)
    requires forall serial: nat :: !AnswersFrom(RunAll(ops), id, serial)
    ensures Take(RunAll(ops).cache, id, fragIds, now, minGap).1 == Unavailable
    ensures Take(RunAll(ops).cache, id, fragIds, now, minGap).0.unavailable == RunAll(ops).cache.unavailable + 1
  {
    if Newest(RunAll(ops).cache.frames, id).Some? { NewestIsSent(RunAll(ops), id); }
  }

  /** The request asks for datagram `i` of a frame of the log, which was not handed back within `minGap`. */
  predicate Due(r: Run, serial: nat, fragIds: seq<nat>, i: nat, now: nat, minGap: nat)
    requires serial < |r.log|
  {
    && (fragIds == [] || i in fragIds) && i < |r.log[serial].datagrams|
    && var last := LastReply(r.replies, serial, i); last.Some? ==> now >= last.value + minGap || minGap == 0
  }

  /** Exactly the datagrams due, and in order if the request is. */
  ghost predicate AreDue(r: Run, serial: nat, fragIds: seq<nat>, now: nat, minGap: nat, indices: seq<nat>)
    requires serial < |r.log|
  {
    && (Ascending(fragIds) ==> Ascending(indices))
    && forall i: nat :: i in indices <==> Due(r, serial, fragIds, i, now, minGap)
  }

  lemma {:induction false} AnswerDue(r: Run, p: nat, serial: nat, fragIds: seq<nat>, now: nat, minGap: nat)
    requires RunOk(r) && p < |r.cache.frames| && serial == |r.log| - |r.cache.frames| + p
    ensures AreDue(r, serial, fragIds, now, minGap,
                   Resend(r.cache.frames[p], Wanted(r.cache.frames[p], fragIds), now, minGap).1)
  {
    var f := r.cache.frames[p];
    HeldIsLogged(r, p);
    assert StampsMatch(f, r.replies, serial);
    var wanted := Wanted(f, fragIds);
    if Ascending(fragIds) { ResendInOrder(f, wanted, now, minGap); }
    forall i: nat ensures i in Resend(f, wanted, now, minGap).1 <==> Due(r, serial, fragIds, i, now, minGap) {
      if fragIds == [] && i < |f.datagrams| { assert wanted[i] == i; }
      ResendExactly(f, wanted, now, minGap, i);
    }
  }

  /** Over any run whose sends do not go back in time, the frames held are the retained suffix of all sent. */
  lemma {:induction false} HeldIsRetained(ops: seq<Op>)
    requires var log := RunAll(ops).log; log != [] && Chronological(log, log[|log| - 1].sentAt)
    ensures var r := RunAll(ops);
            LongestFitting(r.log, Bare(r.cache.frames), r.log[|r.log| - 1].sentAt)
  {
    Retention(RunAll(ops).log);
  }

  // ---- the cache as it runs ----

  /** Pops frames off the front while the oldest is expired or too many bytes are held. */
  method TrimOldest(all: seq<SentFrame>, now: nat) returns (frames: seq<SentFrame>)
    requires all != []
    ensures frames == Trim(all, now)
  {
    frames := all;
    var total := TotalBytes(frames);
    while true
      invariant frames != [] && total == TotalBytes(frames) && Trim(frames, now) == Trim(all, now)
      decreases |frames|
    {
      var oldest := frames[0];
      var expired := Since(now, oldest.sentAt) > RETAIN_FOR;
      if (!expired && total <= RETAIN_BYTES) || |frames| == 1 {
        break;
      }
      total := total - oldest.bytes;
      frames := frames[1..];
    }
  }

  /** Goes through the wanted datagrams of a frame, stamping and collecting those not resent too recently. */
  method ResendWanted(start: SentFrame, wanted: seq<nat>, now: nat, minGap: nat) returns (f: SentFrame, out: seq<Bytes>)
    requires |start.resentAt| == |start.datagrams|
    ensures f == Resend(start, wanted, now, minGap).0
    ensures var indices := Resend(start, wanted, now, minGap).1;
            && |out| == |indices|
            && forall k :: 0 <= k < |out| ==> indices[k] < |start.datagrams| && out[k] == start.datagrams[indices[k]]
  {
    f, out := start, [];
    ghost var taken: seq<nat> := [];
    var left := wanted;
    while left != []
      invariant |out| == |taken|
      invariant f == start.(resentAt := f.resentAt) && |f.resentAt| == |f.datagrams|
      invariant Resend(start, wanted, now, minGap).0 == Resend(f, left, now, minGap).0
      invariant Resend(start, wanted, now, minGap).1 == taken + Resend(f, left, now, minGap).1
      invariant forall k :: 0 <= k < |out| ==> taken[k] < |start.datagrams| && out[k] == start.datagrams[taken[k]]
      decreases |left|
    {
      var idx := left[0];
      if idx < |f.datagrams| && !(f.resentAt[idx].Some? && Since(now, f.resentAt[idx].value) < minGap) {
        TakenStep(taken, f, left, now, minGap);
        taken := taken + [idx];
        f := f.(resentAt := f.resentAt[idx := Some(now)]);
        out := out + [f.datagrams[idx]];
      }
      left := left[1..];
    }
  }

  lemma {:induction false} TakenStep(taken: seq<nat>, f: SentFrame, left: seq<nat>, now: nat, minGap: nat)
    requires left != [] && left[0] < |f.datagrams| && |f.resentAt| == |f.datagrams|
        && !Suppressed(f, left[0], now, minGap)
    ensures var g := f.(resentAt := f.resentAt[left[0] := Some(now)]);
            && Resend(f, left, now, minGap).0 == Resend(g, left[1..], now, minGap).0
            && taken + Resend(f, left, now, minGap).1 == (taken + [left[0]]) + Resend(g, left[1..], now, minGap).1
  {
  }

  /** `out` is what an answer stands for: the named datagrams of the held frame, in order. */
  predicate IsAnswer(out: seq<Bytes>, c: Cache, a: Answer)
    requires a.Answer? ==> a.at < |c.frames|
  {
    match a
    case Unavailable => out == []
    case Answer(at, indices) =>
      |out| == |indices|
      && forall k :: 0 <= k < |out| ==> indices[k] < |c.frames[at].datagrams| && out[k] == c.frames[at].datagrams[indices[k]]
  }

  lemma {:induction false} StampsFit(r: Run)
    requires RunOk(r)
    ensures forall p :: 0 <= p < |r.cache.frames| ==> |r.cache.frames[p].resentAt| == |r.cache.frames[p].datagrams|
  {
    forall p | 0 <= p < |r.cache.frames| ensures |r.cache.frames[p].resentAt| == |r.cache.frames[p].datagrams| {
      assert StampsMatch(r.cache.frames[p], r.replies, |r.log| - |r.cache.frames| + p);
    }
  }

  lemma {:induction false} SendCache(r: Run, id: nat, datagrams: seq<Bytes>, now: nat)
    requires RunOk(r)
    ensures Apply(r, Send(id, datagrams, now)).cache == Add(r.cache, id, datagrams, now)
  {
  }

  lemma {:induction false} NackCache(r: Run, id: nat, fragIds: seq<nat>, now: nat, minGap: nat)
    requires RunOk(r)
    ensures Apply(r, Nack(id, fragIds, now, minGap)).cache == Take(r.cache, id, fragIds, now, minGap).0
  {
  }

  lemma {:induction false} Extends(ops: seq<Op>, op: Op)
    ensures RunAll(ops + [op]) == Apply(RunAll(ops), op)
  {
    assert (ops + [op])[..|ops|] == ops;
  }

  lemma {:induction false} AfterSend(ops: seq<Op>, c: Cache, id: nat, datagrams: seq<Bytes>, now: nat)
    requires c == RunAll(ops).cache
    ensures RunAll(ops + [Send(id, datagrams, now)]).cache == Add(c, id, datagrams, now)
  {
    Extends(ops, Send(id, datagrams, now));
    SendCache(RunAll(ops), id, datagrams, now);
  }

  lemma {:induction false} AfterNack(ops: seq<Op>, c: Cache, id: nat, fragIds: seq<nat>, now: nat, minGap: nat)
    requires c == RunAll(ops).cache
    ensures RunAll(ops + [Nack(id, fragIds, now, minGap)]).cache == Take(c, id, fragIds, now, minGap).0
    ensures forall p :: 0 <= p < |c.frames| ==> |c.frames[p].resentAt| == |c.frames[p].datagrams|
  {
    StampsFit(RunAll(ops));
    Extends(ops, Nack(id, fragIds, now, minGap));
    NackCache(RunAll(ops), id, fragIds, now, minGap);
  }

  class RetransmitCache {
    var frames: seq<SentFrame>
    var resent: nat
    var unavailable: nat
    /** Every send and request so far. */
    ghost var history: seq<Op>

    function State(): Cache
      reads this
    {
      Cache(frames, resent, unavailable)
    }

    ghost predicate Valid()
      reads this
    {
      State() == RunAll(history).cache
    }

    constructor ()
      ensures Valid() && State() == EMPTY && history == []
    {
      frames, resent, unavailable, history := [], 0, 0, [];
    }

    /** Adds a frame and trims, apart from recording the call. */
    method Keep(frameId: nat, datagrams: seq<Bytes>, now: nat)
      modifies this`frames
      ensures State() == Add(old(State()), frameId, datagrams, now)
    {
      frames := TrimOldest(frames + [NewFrame(frameId, datagrams, now)], now);
    }

    /** Records the datagrams a frame went out as, and lets go of what is too old or too much. */
    method Insert(frameId: nat, datagrams: seq<Bytes>, now: nat)
      requires Valid()
      modifies this
      ensures Valid() && history == old(history) + [Send(frameId, datagrams, now)]
      ensures State() == Add(old(State()), frameId, datagrams, now)
    {
      AfterSend(history, State(), frameId, datagrams, now);
      Keep(frameId, datagrams, now);
      history := history + [Send(frameId, datagrams, now)];
    }

    /** Answers a request, apart from recording the call. */
    method Answer(frameId: nat, fragIds: seq<nat>, now: nat, minGap: nat) returns (out: seq<Bytes>)
      requires forall p :: 0 <= p < |frames| ==> |frames[p].resentAt| == |frames[p].datagrams|
      modifies this`frames, this`resent, this`unavailable
      ensures State() == Take(old(State()), frameId, fragIds, now, minGap).0
      ensures IsAnswer(out, old(State()), Take(old(State()), frameId, fragIds, now, minGap).1)
    {
      var at := Newest(frames, frameId);
      if at.None? || Since(now, frames[at.value].sentAt) > RETAIN_FOR {
        unavailable := unavailable + 1;
        return [];
      }
      var f;
      f, out := ResendWanted(frames[at.value], Wanted(frames[at.value], fragIds), now, minGap);
      frames := frames[at.value := f];
      resent := resent + |out|;
    }

    /** The datagrams to resend for a request (all of the frame's when `fragIds` is empty). */
    method TakeForResend(frameId: nat, fragIds: seq<nat>, now: nat, minGap: nat) returns (out: seq<Bytes>)
      requires Valid()
      modifies this
      ensures Valid() && history == old(history) + [Nack(frameId, fragIds, now, minGap)]
      ensures State() == Take(old(State()), frameId, fragIds, now, minGap).0
      ensures IsAnswer(out, old(State()), Take(old(State()), frameId, fragIds, now, minGap).1)
    {
      AfterNack(history, State(), frameId, fragIds, now, minGap);
      out := Answer(frameId, fragIds, now, minGap);
      history := history + [Nack(frameId, fragIds, now, minGap)];
    }

    /** The last datagram of the most recently sent frame. */
    method TailProbe() returns (d: Option<Bytes>)
      ensures d == Probe(State())
    {
      if frames == [] {
        return None;
      }
      var ds := frames[|frames| - 1].datagrams;
      return if ds == [] then None else Some(ds[|ds| - 1]);
    }
  }
}
