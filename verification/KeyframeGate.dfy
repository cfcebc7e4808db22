/** Paces keyframe requests: each waits until the keyframe before it has left the link. */
module KeyframeGate {
  import opened Prelude

  const NEVER: u64 := 0xFFFF_FFFF_FFFF_FFFF
  const MIN_SPACING_MS := 200
  const MAX_SPACING_MS := 1500
  const MIN_SPACING_US := 200_000

  function SaturatingMul(a: u64, b: u64): u64 {
    Min(a * b, 0xFFFF_FFFF_FFFF_FFFF)
  }

  /** Milliseconds to hold back after a keyframe of `size` bytes: twice its transmit time, clamped. */
  function CooldownMs(size: u64, kbps: u32): nat {
    Max(MIN_SPACING_MS, Min(MAX_SPACING_MS, SaturatingMul(size, 16) / Max(kbps, 1)))
  }

  function CooldownUs(size: u64, kbps: u32): nat {
    1000 * CooldownMs(size, kbps)
  }

  /**
   * Between the two spacings the cooldown is twice the time the keyframe takes on the link, to the
   * millisecond: at `kbps` bits a millisecond the link carries at least the doubled bits in a cooldown
   * rounded up, and not in less.
   */
  lemma {:induction false} CooldownIsTwiceTransmitTime(size: u64, kbps: u32)
    ensures MIN_SPACING_MS <= CooldownMs(size, kbps) <= MAX_SPACING_MS
    ensures MIN_SPACING_MS < CooldownMs(size, kbps) < MAX_SPACING_MS
            ==> CooldownMs(size, kbps) * Max(kbps, 1) <= 2 * (8 * size)
                                                      < (CooldownMs(size, kbps) + 1) * Max(kbps, 1)
  {
    var k: nat := Max(kbps, 1);
    var bits: nat := SaturatingMul(size, 16);
    Division(bits, k);
    if CooldownMs(size, kbps) < MAX_SPACING_MS {
      Multiply(bits / k + 1, MAX_SPACING_MS, k);
      Multiply(k, 0xFFFF_FFFF, MAX_SPACING_MS);
    }
  }

  /** It is at least `t` milliseconds exactly when in `t` the link can carry no more than the doubled bits. */
  lemma {:induction false} CooldownAtLeast(size: u64, kbps: u32, t: nat)
    requires MIN_SPACING_MS < t <= MAX_SPACING_MS
    ensures t <= CooldownMs(size, kbps) <==> t * Max(kbps, 1) <= 2 * (8 * size)
  {
    var k: nat := Max(kbps, 1);
    QuotientAtLeast(SaturatingMul(size, 16), k, t);
    AtMostSixtyFourBits(t, k);
  }

  lemma {:induction false} QuotientAtLeast(a: nat, k: nat, t: nat)
    requires k > 0
    ensures t <= a / k <==> t * k <= a
  {
    var q: nat := a / k;
    assert q * k <= a < (q + 1) * k by { Division(a, k); }
    LargestTimes(a, k, t, q);
  }

  lemma {:induction false} LargestTimes(a: nat, k: nat, t: nat, q: nat)
    requires q * k <= a < (q + 1) * k
    ensures t <= q <==> t * k <= a
  {
    Multiply(t, q, k);
    Multiply(q + 1, t, k);
  }

  lemma {:induction false} AtMostSixtyFourBits(t: nat, k: nat)
    requires t <= MAX_SPACING_MS && k < 0x1_0000_0000
    ensures t * k <= 0xFFFF_FFFF_FFFF_FFFF
  {
    Multiply(t, MAX_SPACING_MS, k);
  }

  lemma {:induction false} Division(a: nat, b: nat)
    requires b > 0
    ensures a / b * b <= a < (a / b + 1) * b
  {
    assert a == a / b * b + a % b;
  }

  datatype Gate = Gate(pending: bool, lastIssued: u64, lastSize: u64)

  /** One call; `now` is microseconds since the gate was made. */
  datatype Call =
    | Request
    | Take(now: u64, kbps: u32)
    | Record(now: u64, size: u64)
    | Reset

  predicate Grants(g: Gate, now: u64, kbps: u32) {
    g.pending && (g.lastIssued == NEVER || Since(now, g.lastIssued) >= CooldownUs(g.lastSize, kbps))
  }

  function Next(g: Gate, call: Call): Gate {
    match call
    case Request => g.(pending := true)
    case Take(now, kbps) => if Grants(g, now, kbps) then g.(pending := false, lastIssued := now) else g
    case Record(now, size) =>
      var sized := g.(lastSize := size);
      if g.lastIssued == NEVER || Since(now, g.lastIssued) > MIN_SPACING_US then sized.(lastIssued := now)
      else sized
    case Reset => Gate(true, NEVER, 0)
  }

  function Run(calls: seq<Call>): Gate {
    if calls == [] then Gate(false, NEVER, 0)
    else Next(Run(calls[..|calls| - 1]), calls[|calls| - 1])
  }

  function At(calls: seq<Call>, i: nat): Gate
    requires i <= |calls|
  {
    Run(calls[..i])
  }

  lemma {:induction false} AtNext(calls: seq<Call>, i: nat)
    requires i < |calls|
    ensures At(calls, i + 1) == Next(At(calls, i), calls[i])
  {
    assert calls[..i + 1][..i] == calls[..i];
  }

  /** Call `i` is a take that was answered yes. */
  predicate Granted(calls: seq<Call>, i: nat)
    requires i < |calls|
  {
    calls[i].Take? && Grants(At(calls, i), calls[i].now, calls[i].kbps)
  }

  /** A keyframe is known to the gate from call `i`: granted, or reported by the encoder. */
  predicate Keyframe(calls: seq<Call>, i: nat)
    requires i < |calls|
  {
    calls[i].Record? || Granted(calls, i)
  }

  predicate Timed(call: Call) { call.Take? || call.Record? }

  /** No session restart, and a clock that does not go back or run out. */
  predicate Ordered(calls: seq<Call>) {
    && (forall i :: 0 <= i < |calls| ==> calls[i] != Reset)
    && (forall i :: 0 <= i < |calls| && Timed(calls[i]) ==> calls[i].now < NEVER)
    && forall i, j :: 0 <= i < j < |calls| && Timed(calls[i]) && Timed(calls[j]) ==> calls[i].now <= calls[j].now
  }

  /** The stamp is the time of a keyframe the gate knew of. */
  lemma {:induction false} StampIsAKeyframe(calls: seq<Call>, j: nat)
    requires Ordered(calls) && j <= |calls| && At(calls, j).lastIssued != NEVER
    ensures exists k: nat :: k < j && Keyframe(calls, k) && calls[k].now == At(calls, j).lastIssued
  {
    if j > 0 {
      AtNext(calls, j - 1);
      if At(calls, j).lastIssued == At(calls, j - 1).lastIssued {
        StampIsAKeyframe(calls, j - 1);
      } else {
        assert Keyframe(calls, j - 1);
      }
    }
  }

  /** The stamp never goes back. */
  lemma {:induction false} StampAdvances(calls: seq<Call>, i: nat, j: nat)
    requires Ordered(calls) && i <= j <= |calls| && At(calls, i).lastIssued != NEVER
    ensures At(calls, i).lastIssued <= At(calls, j).lastIssued != NEVER
  {
    if i < j {
      StampAdvances(calls, i, j - 1);
      AtNext(calls, j - 1);
      if Timed(calls[j - 1]) {
        StampIsAKeyframe(calls, j - 1);
      }
    }
  }

  /** Two granted keyframes are a cooldown apart: 200 ms whatever their sizes and the bitrate. */
  lemma {:induction false} GrantsAreSpaced(calls: seq<Call>, i: nat, j: nat)
    requires Ordered(calls) && i < j < |calls| && Granted(calls, i) && Granted(calls, j)
    ensures calls[j].now >= calls[i].now + CooldownUs(LastSize(calls[..j]), calls[j].kbps)
    ensures calls[j].now >= calls[i].now + MIN_SPACING_US
  {
    AtNext(calls, i);
    SizeIsLast(calls, j);
    StampAdvances(calls, i + 1, j);
    assert At(calls, i + 1).lastIssued == calls[i].now;
  }

  /** Request `p` has had no keyframe granted after it. */
  predicate Unanswered(calls: seq<Call>, p: nat) {
    && p < |calls| && calls[p] == Request
    && forall k :: p < k < |calls| ==> !Granted(calls, k)
  }

  lemma {:induction false} GrantedPrefix(calls: seq<Call>, n: nat)
    requires n <= |calls|
    ensures forall k: nat :: k < n ==> (Granted(calls[..n], k) <==> Granted(calls, k))
  {
    forall k: nat | k < n
      ensures Granted(calls[..n], k) <==> Granted(calls, k)
    {
      assert calls[..n][..k] == calls[..k];
    }
  }

  lemma {:induction false} UnansweredPrefix(calls: seq<Call>, p: nat)
    requires |calls| > 0 && !Granted(calls, |calls| - 1) && p < |calls| - 1
    ensures Unanswered(calls[..|calls| - 1], p) <==> Unanswered(calls, p)
  {
    var before := calls[..|calls| - 1];
    GrantedPrefix(calls, |before|);
    if Unanswered(before, p) {
      forall k | p < k < |calls|
        ensures !Granted(calls, k)
      {
        if k < |before| { assert !Granted(before, k); }
      }
    }
    if Unanswered(calls, p) {
      forall k | p < k < |before|
        ensures !Granted(before, k)
      {
        assert !Granted(calls, k);
      }
    }
  }

  /** A request is pending exactly while it is unanswered: none is lost, and none answered twice. */
  lemma {:induction false} PendingIffUnanswered(calls: seq<Call>)
    requires Ordered(calls)
    ensures Run(calls).pending <==> exists p: nat :: Unanswered(calls, p)
  {
    if calls != [] {
      var n := |calls| - 1;
      PendingIffUnanswered(calls[..n]);
      AtNext(calls, n);
      assert calls[..n + 1] == calls;
      if calls[n] == Request {
        assert Unanswered(calls, n);
      } else if Granted(calls, n) {
        assert forall p: nat :: !Unanswered(calls, p);
      } else {
        forall p: nat
          ensures Unanswered(calls[..n], p) <==> Unanswered(calls, p)
        {
          if p < n { UnansweredPrefix(calls, p); }
        }
      }
    }
  }

  /** The size of the last keyframe the encoder reported, 0 if it has reported none. */
  function LastSize(calls: seq<Call>): u64 {
    if calls == [] then 0
    else if calls[|calls| - 1].Record? then calls[|calls| - 1].size else LastSize(calls[..|calls| - 1])
  }

  lemma {:induction false} SizeIsLast(calls: seq<Call>, j: nat)
    requires Ordered(calls) && j <= |calls|
    ensures At(calls, j).lastSize == LastSize(calls[..j])
  {
    if j > 0 {
      SizeIsLast(calls, j - 1);
      AtNext(calls, j - 1);
      assert calls[..j][..j - 1] == calls[..j - 1];
    }
  }

  /**
   * A take that finds a request pending is refused only while the cooldown of a keyframe lasts, which
   * goes by the size of the last keyframe reported.
   */
  lemma {:induction false} RefusedOnlyAfterKeyframe(calls: seq<Call>, j: nat, p: nat)
    requires Ordered(calls) && j < |calls| && calls[j].Take? && !Granted(calls, j)
    requires Unanswered(calls[..j], p)
    ensures exists k: nat :: k < j && Keyframe(calls, k)
                             && calls[j].now < calls[k].now + CooldownUs(LastSize(calls[..j]), calls[j].kbps)
  {
    PendingIffUnanswered(calls[..j]);
    SizeIsLast(calls, j);
    StampIsAKeyframe(calls, j);
  }

  /** The stamp is at most 200 ms before any keyframe known to the gate. */
  lemma {:induction false} StampIsRecent(calls: seq<Call>, k: nat, j: nat)
    requires Ordered(calls) && k < j <= |calls| && Keyframe(calls, k)
    ensures At(calls, j).lastIssued != NEVER && calls[k].now <= At(calls, j).lastIssued + MIN_SPACING_US
  {
    AtNext(calls, k);
    if At(calls, k).lastIssued != NEVER { StampIsAKeyframe(calls, k); }
    StampAdvances(calls, k + 1, j);
  }

  /** And none is granted before that cooldown has passed since every keyframe, to within those 200 ms. */
  lemma {:induction false} GrantedOnlyAfterCooldown(calls: seq<Call>, k: nat, j: nat)
    requires Ordered(calls) && k < j < |calls| && Keyframe(calls, k) && Granted(calls, j)
    ensures calls[j].now + MIN_SPACING_US >= calls[k].now + CooldownUs(LastSize(calls[..j]), calls[j].kbps)
  {
    StampIsRecent(calls, k, j);
    SizeIsLast(calls, j);
  }

  /** A session restart forgets every call before it. */
  lemma {:induction false} ResetForgets(before: seq<Call>, after: seq<Call>)
    ensures Run(before + [Reset] + after) == Run([Reset] + after)
  {
    if after == [] {
      assert (before + [Reset] + after)[..|before|] == before;
      assert before + [Reset] + after == before + [Reset] && [Reset] + after == [Reset];
    } else {
      var (a, b) := (before + [Reset] + after, [Reset] + after);
      ResetForgets(before, after[..|after| - 1]);
      assert a[..|a| - 1] == before + [Reset] + after[..|after| - 1];
      assert b[..|b| - 1] == [Reset] + after[..|after| - 1];
    }
  }

  /** And the first take after it is granted, whatever was granted or sent before. */
  lemma {:induction false} GrantsAfterReset(before: seq<Call>, now: u64, kbps: u32)
    ensures Granted(before + [Reset, Take(now, kbps)], |before| + 1)
  {
    var calls := before + [Reset, Take(now, kbps)];
    AtNext(calls, |before|);
    assert calls[|before|] == Reset;
  }

  /** The gate, whose calls each take effect at once. */
  class KeyframeGate {
    var pending: bool
    var lastIssuedUs: u64
    var lastSizeBytes: u64
    ghost var history: seq<Call>

    ghost predicate Valid() reads this {
      Value() == Run(history)
    }

    function Value(): Gate reads this {
      Gate(pending, lastIssuedUs, lastSizeBytes)
    }

    constructor ()
      ensures Valid() && history == []
    {
      pending, lastIssuedUs, lastSizeBytes, history := false, NEVER, 0, [];
    }

    ghost method Log(call: Call)
      requires Value() == Next(Run(history), call)
      modifies this`history
      ensures Valid() && history == old(history) + [call]
    {
      history := history + [call];
      assert history[..|history| - 1] == old(history);
    }

    method Ask()
      requires Valid()
      modifies this
      ensures Valid() && history == old(history) + [Request]
      ensures pending
    {
      pending := true;
      Log(Request);
    }

    method Forget()
      requires Valid()
      modifies this
      ensures Valid() && history == old(history) + [Reset]
    {
      lastIssuedUs := NEVER;
      lastSizeBytes := 0;
      pending := true;
      Log(Reset);
    }

    method TakeAt(now: u64, kbps: u32) returns (granted: bool)
      requires Valid()
      modifies this
      ensures Valid() && history == old(history) + [Take(now, kbps)]
      ensures granted == Granted(history, |old(history)|)
      ensures granted ==> old(pending) && !pending && lastIssuedUs == now
      ensures !granted ==> Value() == old(Value())
    {
      granted := false;
      if pending {
        var due := true;
        var last := lastIssuedUs;
        if last != NEVER {
          due := Since(now, last) >= CooldownUs(lastSizeBytes, kbps);
        }
        if due {
          pending := false;
          lastIssuedUs := now;
          granted := true;
        }
      }
      Log(Take(now, kbps));
      assert history[..|old(history)|] == old(history);
    }

    method RecordKeyframeAt(now: u64, size: u64)
      requires Valid()
      modifies this
      ensures Valid() && history == old(history) + [Record(now, size)]
      ensures pending == old(pending) && lastSizeBytes == size
    {
      lastSizeBytes := size;
      var last := lastIssuedUs;
      if last == NEVER || Since(now, last) > MIN_SPACING_US {
        lastIssuedUs := now;
      }
      Log(Record(now, size));
    }
  }
}
