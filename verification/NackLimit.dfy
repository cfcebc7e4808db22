/**
 * How many requests a frame can bring: the bound that counts its rounds and its fragments is attained,
 * which says exactly when the configured rounds bound the requests.
 */
module NackLimit {
  import opened Prelude
  import opened Wire
  import opened Fragments
  import opened WindowModel
  import opened WindowSteps
  import opened WindowInvariant
  import opened WindowRuns
  import opened WindowNacks
  import opened Recovery
  import opened Agreement
  import opened WindowStalls
  import opened SafeCalls

  // ---- calls that only ask ----

  /** A fragment that leaves nothing to hand out, and everything within bounds, leaves a request pass to do. */
  lemma {:induction false} OnlyAsks(w: Window, h: Header, now: nat, id: nat)
    requires Inv(w) && WellShaped(w) && Accepted(w, h, now)
    requires var w1 := Stored(w, h, [], now).0; Released(w1) && |w1.slots| <= w1.config.maxHeld && id in w1.slots
    ensures var (w1, e) := (Stored(w, h, [], now).0, Fragment(h, [], now));
            && Step(w, e).0 == RequestMissing(w1, now).0 && SameFrames(w1, Step(w, e).0)
            && Inv(Step(w, e).0) && WellShaped(Step(w, e).0)
            && |Asks(w, e, id)| == if Request(w1, id, now).1.Some? then 1 else 0
  {
    var w1 := Stored(w, h, [], now).0;
    StoredBase(w, h, [], now);
    ReleaseIdle(w1);
    SettleIdle(w1, now);
    InsertIsSettle(w, h, [], now);
    BaseIsShaped(RequestMissing(w1, now).0);
    StepAsks(w, Fragment(h, [], now), id);
  }

  lemma {:induction false} RunGrows(c: Config, es: seq<Event>, e: Event, id: nat)
    ensures var w := Run(c, es).0;
            && Run(c, es + [e]).0 == Step(w, e).0
            && |SentFor(c, es + [e], id)| == (if id in w.slots then |SentFor(c, es, id)| else 0) + |Asks(w, e, id)|
  {
    assert (es + [e])[..|es|] == es;
  }

  lemma {:induction false} TwoHeld(w: Window, a: nat, b: nat)
    requires w.slots.Keys == {a, b} && w.slots[a].complete.None? && w.slots[b].complete.None?
    ensures Released(w) && |w.slots| <= 2 && a in w.slots && b in w.slots
  {
    assert a in w.slots.Keys && b in w.slots.Keys;
    assert |w.slots.Keys| <= 2;
    assert forall k :: k in w.slots ==> k in w.slots.Keys;
  }

  // ---- retries, while a later frame keeps arriving ----

  /** The first `k` fragments of a frame of 65535 that is no keyframe are in. */
  predicate Trailing(s: Slot, k: nat) {
    && s.fragTotal == Some(65535) && s.complete.None? && !s.isKey && |s.fragments| == 65535 && s.received == k
    && forall i :: 0 <= i < 65535 ==> (s.fragments[i].Some? <==> i < k)
  }

  /** The slot still lacks something known to have been sent, and is worth asking for. */
  predicate Wanting(w: Window, s: Slot) {
    Shaped(s) && s.complete.None? && (s.fragTotal.Some? ==> Missing(s, true) != []) && WorthAsking(w, s)
  }

  predicate Setting(w: Window, c: Config, newest: nat) {
    w.config == c && w.rtt == New(c).rtt && w.highest == Some(newest)
  }

  /** Frame `id` has been asked for in `r` rounds, last at `t`, and `k` fragments of the next frame are in. */
  predicate Chasing(w: Window, c: Config, id: nat, total: Option<u16>, k: nat, r: nat, t: nat) {
    && Setting(w, c, id + 1) && w.slots.Keys == {id, id + 1}
    && Trailing(w.slots[id + 1], k) && Wanting(w, w.slots[id]) && w.slots[id].fragTotal == total
    && w.slots[id].nackRounds == r && w.slots[id].lastNack == Some(t)
  }

  function Pause(c: Config): nat { RetryInterval(c, New(c).rtt) }

  /** Fragment `k` of the frame after `id`. */
  function Later(id: u64, k: nat, now: nat): Event
    requires id as nat + 1 < 0x1_0000_0000_0000_0000 && k < 65535
  {
    Fragment(PieceOf(id + 1, k, 65535, false), [], now)
  }

  /** On a retry everything missing is asked for, in one more round. */
  lemma {:induction false} RetryAsks(w: Window, s: Slot, limit: nat, now: nat)
    requires Wanting(w, s) && s.nackRounds < limit
    ensures var (r, ask) := RequestSlot(s, true, true, limit, now);
            && ask.Some? && Wanting(w, r) && r.nackRounds == s.nackRounds + 1 && r.lastNack == Some(now)
  {
    if s.fragTotal.Some? { PartsAskIs(s, true, true, limit, now); }
  }

  lemma {:induction false} LaterStored(w: Window, c: Config, id: u64, total: Option<u16>, k: nat, r: nat, t: nat,
                                       now: nat)
    requires id as nat + 1 < 0x1_0000_0000_0000_0000 && k + 1 < 65535
    requires Inv(w) && WellShaped(w) && Chasing(w, c, id, total, k, r, t)
    ensures Accepted(w, Later(id, k, now).h, now)
    ensures var w1 := Stored(w, Later(id, k, now).h, [], now).0;
            && Chasing(w1, c, id, total, k + 1, r, t) && w1.slots[id] == w.slots[id] && WellShaped(w1)
  {
    var h := Later(id, k, now).h;
    PieceIs(id + 1, k, 65535, false);
    assert id as nat in w.slots.Keys && id as nat + 1 in w.slots.Keys;
    LackingStored(w, h, [], now);
    assert Stored(w, h, [], now).0.slots.Keys == w.slots.Keys;
  }

  lemma {:induction false} RetryPass(w: Window, c: Config, id: nat, total: Option<u16>, k: nat, r: nat, t: nat,
                                     now: nat)
    requires WellShaped(w) && Chasing(w, c, id, total, k, r, t) && r < c.maxNackRounds && now == t + Pause(c)
    ensures id in w.slots && Request(w, id, now).1.Some?
    ensures var s := Request(w, id, now).0; Wanting(w, s) && s.nackRounds == r + 1 && s.lastNack == Some(now)
  {
    assert id in w.slots.Keys && id + 1 in w.slots.Keys;
    assert forall j :: j in w.slots ==> j in w.slots.Keys;
    assert Recoverable(w, id);
    RetryAsks(w, w.slots[id], c.maxNackRounds, now);
  }

  lemma {:induction false} ChasedOn(w1: Window, w2: Window, c: Config, id: nat, total: Option<u16>, k: nat, r: nat,
                                    t: nat, r': nat, t': nat)
    requires Chasing(w1, c, id, total, k, r, t) && SameFrames(w1, w2) && id in w2.slots
    requires Wanting(w1, w2.slots[id]) && w2.slots[id].nackRounds == r' && w2.slots[id].lastNack == Some(t')
    ensures Chasing(w2, c, id, total, k, r', t')
  {
    assert id + 1 in w1.slots.Keys;
  }

  lemma {:induction false} LaterPass(w: Window, c: Config, id: u64, total: Option<u16>, k: nat, r: nat, t: nat,
                                     now: nat)
    returns (w1: Window)
    requires id as nat + 1 < 0x1_0000_0000_0000_0000 && k + 1 < 65535 && c.maxHeld >= 2
    requires Inv(w) && WellShaped(w) && Chasing(w, c, id, total, k, r, t)
    ensures WellShaped(w1) && Chasing(w1, c, id, total, k + 1, r, t) && w1.slots[id] == w.slots[id]
    ensures var (e, w2) := (Later(id, k, now), RequestMissing(w1, now).0);
            && Step(w, e).0 == w2 && SameFrames(w1, w2)
            && |Asks(w, e, id)| == if Request(w1, id, now).1.Some? then 1 else 0
  {
    LaterStored(w, c, id, total, k, r, t, now);
    var h := Later(id, k, now).h;
    w1 := Stored(w, h, [], now).0;
    assert id as nat in w1.slots.Keys && id as nat + 1 in w1.slots.Keys;
    TwoHeld(w1, id, id as nat + 1);
    OnlyAsks(w, h, now, id);
  }

  lemma {:induction false} PassChases(w1: Window, c: Config, id: nat, total: Option<u16>, k: nat, r: nat, t: nat,
                                      now: nat)
    requires WellShaped(w1) && Chasing(w1, c, id, total, k, r, t) && r < c.maxNackRounds && now == t + Pause(c)
    requires SameFrames(w1, RequestMissing(w1, now).0)
    ensures id in w1.slots && Request(w1, id, now).1.Some?
    ensures Chasing(RequestMissing(w1, now).0, c, id, total, k, r + 1, now)
  {
    RetryPass(w1, c, id, total, k, r, t, now);
    ChasedOn(w1, RequestMissing(w1, now).0, c, id, total, k, r, t, r + 1, now);
  }

  /** One fragment of the next frame, a pause later, brings one request and one round more. */
  lemma {:induction false} RetryStep(w: Window, c: Config, id: u64, total: Option<u16>, k: nat, r: nat, t: nat,
                                     now: nat, e: Event)
    requires id as nat + 1 < 0x1_0000_0000_0000_0000 && k + 1 < 65535 && r < c.maxNackRounds && c.maxHeld >= 2
    requires Inv(w) && WellShaped(w) && Chasing(w, c, id, total, k, r, t) && now == t + Pause(c)
        && e == Later(id, k, now)
    ensures |Asks(w, e, id)| == 1 && Chasing(Step(w, e).0, c, id, total, k + 1, r + 1, now)
  {
    var w1 := LaterPass(w, c, id, total, k, r, t, now);
    PassChases(w1, c, id, total, k + 1, r, t, now);
  }

  /** The run has brought `sent` requests for frame `id`, of at most `n` fragments, which is being chased. */
  ghost predicate ChasedFor(c: Config, es: seq<Event>, id: nat, n: nat, total: Option<u16>, k: nat, r: nat, t: nat,
                            sent: nat)
  {
    AtMost(es, id, n) && Chasing(Run(c, es).0, c, id, total, k, r, t) && |SentFor(c, es, id)| == sent
  }

  lemma {:induction false} AtMostGrows(es: seq<Event>, e: Event, id: nat, n: nat)
    requires AtMost(es, id, n) && (e.Fragment? && e.h.frameId == id ==> e.h.fragTotal <= n)
    ensures AtMost(es + [e], id, n)
  {
  }

  lemma {:induction false} RoundDone(c: Config, es: seq<Event>, e: Event, id: nat, n: nat, total: Option<u16>,
                                     k: nat, r: nat, t: nat, sent: nat)
    requires id in Run(c, es).0.slots && |SentFor(c, es, id)| == sent && AtMost(es + [e], id, n)
    requires |Asks(Run(c, es).0, e, id)| == 1 && Chasing(Step(Run(c, es).0, e).0, c, id, total, k, r, t)
    ensures ChasedFor(c, es + [e], id, n, total, k, r, t, sent + 1)
  {
    RunGrows(c, es, e, id);
  }

  lemma {:induction false} OneRound(c: Config, es: seq<Event>, id: u64, n: nat, total: Option<u16>, k: nat, r: nat,
                                    t: nat,
                                    sent: nat, now: nat, e: Event)
    requires id as nat + 1 < 0x1_0000_0000_0000_0000 && c.maxHeld >= 2 && r < c.maxNackRounds && k + 1 < 65535
    requires ChasedFor(c, es, id, n, total, k, r, t, sent) && now == t + Pause(c) && e == Later(id, k, now)
    ensures ChasedFor(c, es + [e], id, n, total, k + 1, r + 1, now, sent + 1)
  {
    RetryStep(Run(c, es).0, c, id, total, k, r, t, now, e);
    AtMostGrows(es, e, id, n);
    assert id as nat in Run(c, es).0.slots.Keys;
    var (k1, r1) := (k + 1, r + 1);
    RoundDone(c, es, e, id, n, total, k1, r1, now, sent);
  }

  /** The remaining rounds, one fragment of the next frame after another. */
  lemma {:induction false} AllRounds(c: Config, es: seq<Event>, id: u64, n: nat, total: Option<u16>, k: nat,
                                     r: nat, t: nat, sent: nat, left: nat)
    returns (all: seq<Event>, t': nat)
    requires id as nat + 1 < 0x1_0000_0000_0000_0000 && c.maxHeld >= 2 && r + left == c.maxNackRounds
    requires k + left < 65535 && ChasedFor(c, es, id, n, total, k, r, t, sent)
    ensures ChasedFor(c, all, id, n, total, k + left, r + left, t', sent + left)
    decreases left
  {
    if left == 0 {
      all, t' := es, t;
    } else {
      var now := t + Pause(c);
      var e := Later(id, k, now);
      var (k1, r1, sent1, left1) := (k + 1, r + 1, sent + 1, left - 1);
      OneRound(c, es, id, n, total, k, r, t, sent, now, e);
      var next := es + [e];
      all, t' := AllRounds(c, next, id, n, total, k1, r1, now, sent1, left1);
    }
  }

  // ---- a frame asked for whole ----

  /** A keyframe is out, nothing is held, and the frame after it is awaited. */
  predicate AllOut(w: Window, c: Config, next: nat) {
    next > 0 && Setting(w, c, next - 1) && w.slots == map[] && !w.needKey && w.nextId == Some(next)
  }

  lemma {:induction false} KeyStored(c: Config, a: u64)
    ensures Inv(New(c)) && WellShaped(New(c)) && Accepted(New(c), Single(a, true), 0)
    ensures var w1 := Stored(New(c), Single(a, true), [], 0).0;
            && w1.slots.Keys == {a as nat} && w1.slots[a].isKey && w1.slots[a].complete.Some?
            && w1.highest == Some(a as nat) && w1.config == c && w1.rtt == New(c).rtt
  {
    NewInv(c);
    BaseIsShaped(New(c));
    SingleIsValid(a, true);
    var w0 := NoteNewFrame(New(c), a, true, 0).0;
    assert w0.slots == map[];
    assert SlotFor(w0, a, 1) == Sized(UNKNOWN, 1);
  }

  lemma {:induction false} SettleRtt(w: Window, now: nat)
    requires Base(w) && WellShaped(w)
    ensures Settle(w, now).0.rtt == w.rtt
  {
    ReleaseStage(w);
    RequestStage(Release(w).0, now);
    SettleStages(w, now);
    EnforceInv(RequestMissing(Release(w).0, now).0, now);
  }

  /** A whole keyframe just before frame `id`. */
  lemma {:induction false} KeyEvent(c: Config, id: u64, n: nat) returns (e: Event)
    requires c.maxHeld >= 1 && 0 < id
    ensures Inv(New(c)) && WellShaped(New(c)) && AllOut(Step(New(c), e).0, c, id) && AtMost([e], id, n)
  {
    var a: u64 := id - 1;
    e := Fragment(Single(a, true), [], 0);
    KeyStored(c, a);
    var w1 := Stored(New(c), Single(a, true), [], 0).0;
    StoredBase(New(c), Single(a, true), [], 0);
    ReleaseOnly(w1, a);
    SettleStages(w1, 0);
    SettleEmpty(Release(w1).0, 0);
    SettleRtt(w1, 0);
    InsertIsSettle(New(c), Single(a, true), [], 0);
  }

  /** The first call of a run. */
  lemma {:induction false} RunOne(c: Config, e: Event, id: nat)
    ensures Inv(New(c)) && WellShaped(New(c))
    ensures Run(c, [e]).0 == Step(New(c), e).0 && |SentFor(c, [e], id)| == |Asks(New(c), e, id)|
  {
    NewInv(c);
    BaseIsShaped(New(c));
    var none: seq<Event> := [];
    assert Run(c, none).0 == New(c);
    RunGrows(c, none, e, id);
    assert none + [e] == [e];
  }

  lemma {:induction false} KeyOut(c: Config, id: u64, n: nat) returns (es: seq<Event>)
    requires c.maxHeld >= 1 && 0 < id
    ensures AllOut(Run(c, es).0, c, id) && AtMost(es, id, n)
  {
    var e := KeyEvent(c, id, n);
    RunOne(c, e, id);
    es := [e];
  }

  lemma {:induction false} GapNoted(w: Window, c: Config, id: u64)
    requires id as nat + 1 < 0x1_0000_0000_0000_0000 && c.maxGap >= 1
    requires WellShaped(w) && AllOut(w, c, id)
    ensures var w0 := NoteNewFrame(w, id as nat + 1, false, 0).0;
            && Setting(w0, c, id as nat + 1) && w0.nextId == Some(id as nat)
            && w0.slots == map[id as nat := UNKNOWN.(missingSince := Some(0))]
  {
    var w1 := MarkTails(NoteAsked(w, 0), 0).(highest := Some(id as nat + 1));
    assert Gap(w1, id - 1, id as nat + 1) == {id as nat};
  }

  lemma {:induction false} TrailingStarts(id: u64)
    requires id as nat + 1 < 0x1_0000_0000_0000_0000
    ensures Trailing(Store(Sized(UNKNOWN, 65535), Later(id, 0, 0).h, []), 1)
  {
    PieceIs(id + 1, 0, 65535, false);
  }

  lemma {:induction false} GapStored(w: Window, c: Config, id: u64)
    requires id as nat + 1 < 0x1_0000_0000_0000_0000 && c.maxGap >= 1
    requires Inv(w) && WellShaped(w) && AllOut(w, c, id)
    ensures Accepted(w, Later(id, 0, 0).h, 0)
    ensures var w1 := Stored(w, Later(id, 0, 0).h, [], 0).0;
            && Setting(w1, c, id as nat + 1) && w1.slots.Keys == {id as nat, id as nat + 1} && WellShaped(w1)
            && w1.slots[id] == UNKNOWN.(missingSince := Some(0)) && Trailing(w1.slots[id as nat + 1], 1)
  {
    var h := Later(id, 0, 0).h;
    PieceIs(id + 1, 0, 65535, false);
    GapNoted(w, c, id);
    var w0 := NoteNewFrame(w, id + 1, false, 0).0;
    NoteKeepsShape(w, id + 1, false, 0);
    assert SlotFor(w0, id + 1, 65535) == Sized(UNKNOWN, 65535);
    TrailingStarts(id);
    var w1 := Stored(w, h, [], 0).0;
    assert w1.slots == w0.slots[id as nat + 1 := Store(Sized(UNKNOWN, 65535), h, [])];
  }

  /** The frame passed over is asked for whole. */
  lemma {:induction false} GapAsks(w: Window, c: Config, id: u64)
    requires id as nat + 1 < 0x1_0000_0000_0000_0000 && c.maxGap >= 1 && c.maxHeld >= 2 && c.maxNackRounds >= 1
    requires Inv(w) && WellShaped(w) && AllOut(w, c, id)
    ensures Chasing(Step(w, Later(id, 0, 0)).0, c, id, None, 1, 1, 0) && |Asks(w, Later(id, 0, 0), id)| == 1
  {
    GapStored(w, c, id);
    var h := Later(id, 0, 0).h;
    var w1 := Stored(w, h, [], 0).0;
    assert id as nat in w1.slots.Keys && id as nat + 1 in w1.slots.Keys;
    TwoHeld(w1, id, id as nat + 1);
    OnlyAsks(w, h, 0, id);
    GapPass(w1, c, id);
  }

  lemma {:induction false} GapPass(w1: Window, c: Config, id: nat)
    requires WellShaped(w1) && Setting(w1, c, id + 1) && w1.slots.Keys == {id, id + 1} && c.maxNackRounds >= 1
    requires w1.slots[id] == UNKNOWN.(missingSince := Some(0)) && Trailing(w1.slots[id + 1], 1)
    requires SameFrames(w1, RequestMissing(w1, 0).0)
    ensures id in w1.slots && Request(w1, id, 0).1.Some?
    ensures Chasing(RequestMissing(w1, 0).0, c, id, None, 1, 1, 0)
  {
    assert id in w1.slots.Keys && id + 1 in w1.slots.Keys;
    assert forall j :: j in w1.slots ==> j in w1.slots.Keys;
    assert Recoverable(w1, id);
  }

  /** One event more, of a frame that was not held. */
  lemma {:induction false} FirstRound(c: Config, es: seq<Event>, e: Event, id: nat, n: nat, total: Option<u16>)
    requires id !in Run(c, es).0.slots && AtMost(es + [e], id, n) && |Asks(Run(c, es).0, e, id)| == 1
    requires Chasing(Step(Run(c, es).0, e).0, c, id, total, 1, 1, 0)
    ensures ChasedFor(c, es + [e], id, n, total, 1, 1, 0, 1)
  {
    RunGrows(c, es, e, id);
  }

  lemma {:induction false} PassedOver(c: Config, es: seq<Event>, id: u64, n: nat)
    requires id as nat + 1 < 0x1_0000_0000_0000_0000 && AllOut(Run(c, es).0, c, id) && AtMost(es, id, n)
    requires c.maxGap >= 1 && c.maxHeld >= 2 && c.maxNackRounds >= 1
    ensures ChasedFor(c, es + [Later(id, 0, 0)], id, n, None, 1, 1, 0, 1)
  {
    GapAsks(Run(c, es).0, c, id);
    AtMostGrows(es, Later(id, 0, 0), id, n);
    FirstRound(c, es, Later(id, 0, 0), id, n, None);
  }

  /** Every round goes to the whole frame. */
  lemma {:induction false} WholeRounds(c: Config, id: u64, n: nat) returns (es: seq<Event>, t: nat)
    requires 0 < id && id as nat + 1 < 0x1_0000_0000_0000_0000
    requires c.maxGap >= 1 && c.maxHeld >= 2 && 1 <= c.maxNackRounds < 65535
    ensures ChasedFor(c, es, id, n, None, c.maxNackRounds, c.maxNackRounds, t, c.maxNackRounds)
  {
    var before := KeyOut(c, id, n);
    PassedOver(c, before, id, n);
    var (first, left) := (before + [Later(id, 0, 0)], c.maxNackRounds - 1);
    es, t := AllRounds(c, first, id, n, None, 1, 1, 0, 1, left);
  }

  /** A slot of which one of two fragments just came, all rounds used: the other is asked for all the same. */
  lemma {:induction false} HalfAsked(s: Slot, due: bool, limit: nat, now: nat)
    requires Shaped(s) && s.fragTotal == Some(2) && s.complete.None? && s.nackRounds == limit
    requires |s.fragments| == |s.asked| == 2 && s.fragments[1].None? && !s.asked[1]
    ensures RequestSlot(s, true, due, limit, now).1.Some?
  {
    PartsAskIs(s, true, due, limit, now);
    assert 1 in Missing(s, true);
    assert 1 in NotYetAsked(s, Missing(s, true));
  }

  lemma {:induction false} HalfStored(w: Window, c: Config, id: u64, k: nat, r: nat, t: nat)
    requires id as nat + 1 < 0x1_0000_0000_0000_0000
    requires Inv(w) && WellShaped(w) && Chasing(w, c, id, None, k, r, t)
    ensures Accepted(w, Half(id, 0, true), t)
    ensures var w1 := Stored(w, Half(id, 0, true), [], t).0;
            && WellShaped(w1) && w1.slots.Keys == {id as nat, id as nat + 1} && w1.highest == Some(id as nat + 1)
            && w1.config == c && Trailing(w1.slots[id as nat + 1], k)
            && var s := w1.slots[id];
               && s.fragTotal == Some(2) && s.complete.None? && s.nackRounds == r && s.isKey
               && |s.fragments| == |s.asked| == 2 && s.fragments[1].None? && !s.asked[1]
  {
    HalfIsValid(id, 0, true);
    assert id as nat in w.slots.Keys && id as nat + 1 in w.slots.Keys;
    assert SlotOk(id, w.slots[id]);
    LackingStored(w, Half(id, 0, true), [], t);
    assert Stored(w, Half(id, 0, true), [], t).0.slots.Keys == w.slots.Keys;
  }

  lemma {:induction false} HalfPass(w1: Window, c: Config, id: nat, k: nat, now: nat)
    requires WellShaped(w1) && w1.slots.Keys == {id, id + 1} && w1.highest == Some(id + 1) && w1.config == c
    requires Trailing(w1.slots[id + 1], k)
    requires var s := w1.slots[id];
             && s.fragTotal == Some(2) && s.complete.None? && s.nackRounds == c.maxNackRounds && s.isKey
             && |s.fragments| == |s.asked| == 2 && s.fragments[1].None? && !s.asked[1]
    ensures id in w1.slots && Request(w1, id, now).1.Some?
  {
    assert id in w1.slots.Keys && id + 1 in w1.slots.Keys;
    assert forall j :: j in w1.slots ==> j in w1.slots.Keys;
    assert Recoverable(w1, id);
    HalfAsked(w1.slots[id], RetryDue(w1, w1.slots[id], now), c.maxNackRounds, now);
  }

  lemma {:induction false} HalfAsks(w: Window, c: Config, id: u64, k: nat, t: nat, e: Event)
    requires id as nat + 1 < 0x1_0000_0000_0000_0000 && c.maxHeld >= 2 && e == Fragment(Half(id, 0, true), [], t)
    requires Inv(w) && WellShaped(w) && Chasing(w, c, id, None, k, c.maxNackRounds, t)
    ensures |Asks(w, e, id)| == 1
  {
    HalfStored(w, c, id, k, c.maxNackRounds, t);
    var w1 := Stored(w, Half(id, 0, true), [], t).0;
    assert id as nat in w1.slots.Keys && id as nat + 1 in w1.slots.Keys;
    TwoHeld(w1, id, id as nat + 1);
    OnlyAsks(w, Half(id, 0, true), t, id);
    HalfPass(w1, c, id, k, t);
  }

  /** One request more than the rounds: for the rest of a frame of two fragments, once one of them is in. */
  lemma {:induction false} WholeThenHalf(c: Config, id: u64, n: nat) returns (es: seq<Event>)
    requires 0 < id && id as nat + 1 < 0x1_0000_0000_0000_0000 && n >= 2
    requires c.maxGap >= 1 && c.maxHeld >= 2 && 1 <= c.maxNackRounds < 65535
    ensures AtMost(es, id, n) && |SentFor(c, es, id)| == c.maxNackRounds + 1
  {
    var before, t := WholeRounds(c, id, n);
    var e := Fragment(Half(id, 0, true), [], t);
    HalfAsks(Run(c, before).0, c, id, c.maxNackRounds, t, e);
    RunGrows(c, before, e, id);
    AtMostGrows(before, e, id, n);
    assert id as nat in Run(c, before).0.slots.Keys;
    es := before + [e];
  }

  // ---- a frame every other fragment of which arrives ----

  /** Fragments 1, 3, and so on, `j` of them, are in; what they skipped is asked for, and nothing beyond. */
  predicate Skipping(s: Slot, j: nat, n: nat) {
    && s.fragTotal.Some? && s.fragTotal.value == n == |s.fragments| == |s.asked| && s.complete.None? && s.isKey
    && s.received == j > 0 && s.highestFrag == 2 * j - 1 < n && s.fragments[0].None?
    && (forall k :: 0 <= k < 2 * j ==> s.fragments[k].Some? || s.asked[k])
    && (forall k :: 2 * j <= k < n ==> s.fragments[k].None? && !s.asked[k])
    && s.nackRounds == 1 && s.lastNack == Some(0)
  }

  /** The last of them is in, and what it skipped, fragment `hole`, is still to be asked for. */
  predicate SkippedTo(s: Slot, j: nat, n: nat, hole: nat) {
    && s.fragTotal.Some? && s.fragTotal.value == n == |s.fragments| == |s.asked| && s.complete.None? && s.isKey
    && s.received == j > 0 && s.highestFrag == 2 * j - 1 == hole + 1 < n && s.fragments[0].None?
    && (forall k :: 0 <= k < hole ==> s.fragments[k].Some? || s.asked[k])
    && s.fragments[hole].None? && !s.asked[hole] && s.fragments[hole + 1].Some?
    && (forall k :: 2 * j <= k < n ==> s.fragments[k].None? && !s.asked[k])
    && (if j == 1 then s.nackRounds == 0 && s.lastNack.None? else s.nackRounds == 1 && s.lastNack == Some(0))
  }

  /** The hole is asked for at once, and takes a round only if it is the first. */
  lemma {:induction false} SkipAsks(s: Slot, j: nat, n: nat, hole: nat, limit: nat)
    requires Shaped(s) && SkippedTo(s, j, n, hole)
    ensures RequestSlot(s, false, false, limit, 0).1.Some? && Skipping(RequestSlot(s, false, false, limit, 0).0, j, n)
  {
    PartsAskIs(s, false, false, limit, 0);
    assert hole in Missing(s, false);
    assert hole in NotYetAsked(s, Missing(s, false));
  }

  /** Once a later frame is seen the tail is asked for, if there is one. */
  lemma {:induction false} TailAsks(s: Slot, j: nat, n: nat, limit: nat)
    requires Shaped(s) && Skipping(s, j, n) && n - 2 * j <= 1
    ensures var (r, ask) := RequestSlot(s, true, false, limit, 0);
            && (ask.Some? <==> 2 * j < n)
            && r.complete.None? && r.fragTotal == s.fragTotal && Shaped(r) && Missing(r, true) != [] && r.isKey
            && r.nackRounds == 1 && r.lastNack == Some(0)
  {
    PartsAskIs(s, true, false, limit, 0);
    var missing := Missing(s, true);
    assert 0 in missing;
    var news := NotYetAsked(s, missing);
    if 2 * j < n { assert n - 1 in news; }
    assert |news| > 0 ==> news[0] in news;
    var r := RequestSlot(s, true, false, limit, 0).0;
    assert 0 in Missing(r, true);
  }

  predicate OnlyHeld(w: Window, c: Config, id: nat) {
    Setting(w, c, id) && w.slots.Keys == {id}
  }

  predicate OnlySkips(w: Window, c: Config, id: nat, j: nat, n: nat) {
    OnlyHeld(w, c, id) && Skipping(w.slots[id], j, n)
  }

  lemma {:induction false} OneHeld(w: Window, a: nat)
    requires w.slots.Keys == {a} && w.slots[a].complete.None?
    ensures Released(w) && |w.slots| <= 1 && a in w.slots
  {
    assert a in w.slots.Keys;
    assert |w.slots.Keys| <= 1;
    assert forall k :: k in w.slots ==> k in w.slots.Keys;
  }

  lemma {:induction false} FirstSkipStored(c: Config, id: u64, n: u16)
    requires n >= 2
    ensures Inv(New(c)) && WellShaped(New(c)) && Accepted(New(c), PieceOf(id, 1, n, true), 0)
    ensures var w1 := Stored(New(c), PieceOf(id, 1, n, true), [], 0).0;
            WellShaped(w1) && OnlyHeld(w1, c, id) && SkippedTo(w1.slots[id], 1, n, 0)
  {
    var h := PieceOf(id, 1, n, true);
    NewInv(c);
    BaseIsShaped(New(c));
    PieceIs(id, 1, n, true);
    var w0 := NoteNewFrame(New(c), id, true, 0).0;
    assert w0.slots == map[];
    assert SlotFor(w0, id, n) == Sized(UNKNOWN, n);
    assert Stored(New(c), h, [], 0).0.slots == map[id as nat := Store(Sized(UNKNOWN, n), h, [])];
  }

  lemma {:induction false} NextSkipStored(w: Window, c: Config, id: u64, j: nat, n: u16, hole: nat)
    requires Inv(w) && WellShaped(w) && OnlySkips(w, c, id, j, n) && hole == 2 * j && hole + 1 < n
    ensures Accepted(w, PieceOf(id, hole + 1, n, true), 0)
    ensures var w1 := Stored(w, PieceOf(id, hole + 1, n, true), [], 0).0;
            WellShaped(w1) && OnlyHeld(w1, c, id) && SkippedTo(w1.slots[id], j + 1, n, hole)
  {
    var h := PieceOf(id, hole + 1, n, true);
    PieceIs(id, hole + 1, n, true);
    assert id as nat in w.slots.Keys;
    LackingStored(w, h, [], 0);
    assert Stored(w, h, [], 0).0.slots.Keys == w.slots.Keys;
  }

  lemma {:induction false} SkipPass(w1: Window, c: Config, id: nat, j: nat, n: nat, hole: nat)
    requires WellShaped(w1) && OnlyHeld(w1, c, id) && SkippedTo(w1.slots[id], j, n, hole)
    requires SameFrames(w1, RequestMissing(w1, 0).0)
    ensures id in w1.slots && Request(w1, id, 0).1.Some? && OnlySkips(RequestMissing(w1, 0).0, c, id, j, n)
  {
    assert id in w1.slots.Keys;
    assert forall k :: k in w1.slots ==> k in w1.slots.Keys;
    assert Recoverable(w1, id);
    assert Shaped(w1.slots[id]);
    SkipAsks(w1.slots[id], j, n, hole, c.maxNackRounds);
  }

  /** One request for each piece of the keyframe so far. */
  ghost predicate SkipsFor(c: Config, es: seq<Event>, id: nat, n: nat, j: nat) {
    AtMost(es, id, n) && OnlySkips(Run(c, es).0, c, id, j, n) && |SentFor(c, es, id)| == j
  }

  lemma {:induction false} FirstSkip(c: Config, id: u64, n: u16) returns (e: Event)
    requires n >= 2 && c.maxHeld >= 1
    ensures Inv(New(c)) && WellShaped(New(c)) && AtMost([e], id, n)
    ensures OnlySkips(Step(New(c), e).0, c, id, 1, n) && |Asks(New(c), e, id)| == 1
  {
    var h := PieceOf(id, 1, n, true);
    e := Fragment(h, [], 0);
    FirstSkipStored(c, id, n);
    var w1 := Stored(New(c), h, [], 0).0;
    assert id as nat in w1.slots.Keys;
    OneHeld(w1, id);
    OnlyAsks(New(c), h, 0, id);
    SkipPass(w1, c, id, 1, n, 0);
  }

  lemma {:induction false} NextSkip(w: Window, c: Config, id: u64, j: nat, n: u16) returns (e: Event)
    requires Inv(w) && WellShaped(w) && OnlySkips(w, c, id, j, n) && 2 * j + 1 < n && c.maxHeld >= 1
    ensures e.Fragment? && e.h.frameId == id && e.h.fragTotal == n
    ensures OnlySkips(Step(w, e).0, c, id, j + 1, n) && |Asks(w, e, id)| == 1
  {
    var hole := 2 * j;
    var h := PieceOf(id, hole + 1, n, true);
    e := Fragment(h, [], 0);
    NextSkipStored(w, c, id, j, n, hole);
    var w1 := Stored(w, h, [], 0).0;
    assert id as nat in w1.slots.Keys;
    OneHeld(w1, id);
    OnlyAsks(w, h, 0, id);
    SkipPass(w1, c, id, j + 1, n, hole);
  }

  lemma {:induction false} SkipDone(c: Config, es: seq<Event>, e: Event, id: nat, n: nat, j: nat)
    requires SkipsFor(c, es, id, n, j) && e.Fragment? && e.h.frameId == id && e.h.fragTotal == n
    requires OnlySkips(Step(Run(c, es).0, e).0, c, id, j + 1, n) && |Asks(Run(c, es).0, e, id)| == 1
    ensures SkipsFor(c, es + [e], id, n, j + 1)
  {
    RunGrows(c, es, e, id);
    AtMostGrows(es, e, id, n);
    assert id in Run(c, es).0.slots.Keys;
  }

  /** Every other fragment, `j` of them. */
  lemma {:induction false} AllSkips(c: Config, id: u64, n: u16, j: nat) returns (es: seq<Event>)
    requires 0 < j && 2 * j <= n && c.maxHeld >= 1
    ensures SkipsFor(c, es, id, n, j)
  {
    if j == 1 {
      var e := FirstSkip(c, id, n);
      RunOne(c, e, id);
      es := [e];
    } else {
      var i := j - 1;
      var before := AllSkips(c, id, n, i);
      var e := NextSkip(Run(c, before).0, c, id, i, n);
      SkipDone(c, before, e, id, n, i);
      es := before + [e];
    }
  }

  lemma {:induction false} NextFrameNoted(w: Window, c: Config, id: u64, j: nat, n: nat)
    requires Inv(w) && WellShaped(w) && OnlySkips(w, c, id, j, n)
    ensures var w0 := NoteNewFrame(w, id as nat + 1, false, 0).0;
            && Setting(w0, c, id as nat + 1) && w0.slots.Keys == {id as nat} && Skipping(w0.slots[id], j, n)
            && w0.nextId == w.nextId && (w.nextId.Some? ==> w.nextId.value <= id)
  {
    assert id as nat in w.slots.Keys && InRange(w, id);
    assert NoteNewFrame(w, id as nat + 1, false, 0).0.slots.Keys == w.slots.Keys;
  }

  lemma {:induction false} NextFrameStored(w: Window, c: Config, id: u64, j: nat, n: nat)
    requires id as nat + 1 < 0x1_0000_0000_0000_0000
    requires Inv(w) && WellShaped(w) && OnlySkips(w, c, id, j, n)
    ensures Accepted(w, Later(id, 0, 0).h, 0)
    ensures var w1 := Stored(w, Later(id, 0, 0).h, [], 0).0;
            && Setting(w1, c, id as nat + 1) && w1.slots.Keys == {id as nat, id as nat + 1} && WellShaped(w1)
            && Skipping(w1.slots[id], j, n) && Trailing(w1.slots[id as nat + 1], 1)
  {
    var h := Later(id, 0, 0).h;
    PieceIs(id + 1, 0, 65535, false);
    NextFrameNoted(w, c, id, j, n);
    var w0 := NoteNewFrame(w, id + 1, false, 0).0;
    NoteKeepsShape(w, id + 1, false, 0);
    assert id as nat + 1 !in w0.slots.Keys && id as nat in w0.slots.Keys;
    assert SlotFor(w0, id + 1, 65535) == Sized(UNKNOWN, 65535);
    TrailingStarts(id);
    var w1 := Stored(w, h, [], 0).0;
    assert w1.slots == w0.slots[id as nat + 1 := Store(Sized(UNKNOWN, 65535), h, [])];
  }

  lemma {:induction false} TailIs(w1: Window, c: Config, id: nat, j: nat, n: u16)
    requires WellShaped(w1) && Setting(w1, c, id + 1) && w1.slots.Keys == {id, id + 1}
    requires Skipping(w1.slots[id], j, n) && Trailing(w1.slots[id + 1], 1) && n - 2 * j <= 1
    ensures id in w1.slots && Request(w1, id, 0) == RequestSlot(w1.slots[id], true, false, c.maxNackRounds, 0)
    ensures Shaped(w1.slots[id])
  {
    assert id in w1.slots.Keys && id + 1 in w1.slots.Keys;
    assert forall k :: k in w1.slots ==> k in w1.slots.Keys;
    assert Recoverable(w1, id);
  }

  lemma {:induction false} NowChasing(w1: Window, w2: Window, c: Config, id: nat, total: Option<u16>)
    requires Setting(w1, c, id + 1) && w1.slots.Keys == {id, id + 1} && Trailing(w1.slots[id + 1], 1)
    requires SameFrames(w1, w2) && id in w2.slots && Wanting(w1, w2.slots[id]) && w2.slots[id].fragTotal == total
    requires w2.slots[id].nackRounds == 1 && w2.slots[id].lastNack == Some(0)
    ensures Chasing(w2, c, id, total, 1, 1, 0)
  {
    assert id + 1 in w1.slots.Keys;
  }

  lemma {:induction false} TailPass(w1: Window, c: Config, id: nat, j: nat, n: u16)
    requires WellShaped(w1) && Setting(w1, c, id + 1) && w1.slots.Keys == {id, id + 1}
    requires Skipping(w1.slots[id], j, n) && Trailing(w1.slots[id + 1], 1) && n - 2 * j <= 1
    requires SameFrames(w1, RequestMissing(w1, 0).0)
    ensures id in w1.slots && (Request(w1, id, 0).1.Some? <==> 2 * j < n)
    ensures Chasing(RequestMissing(w1, 0).0, c, id, Some(n), 1, 1, 0)
  {
    TailIs(w1, c, id, j, n);
    TailAsks(w1.slots[id], j, n, c.maxNackRounds);
    NowChasing(w1, RequestMissing(w1, 0).0, c, id, Some(n));
  }

  lemma {:induction false} TailStep(w: Window, c: Config, id: u64, j: nat, n: u16, e: Event)
    requires id as nat + 1 < 0x1_0000_0000_0000_0000 && c.maxHeld >= 2 && n - 2 * j <= 1 && e == Later(id, 0, 0)
    requires Inv(w) && WellShaped(w) && OnlySkips(w, c, id, j, n)
    ensures Chasing(Step(w, e).0, c, id, Some(n), 1, 1, 0) && |Asks(w, e, id)| == if 2 * j < n then 1 else 0
  {
    NextFrameStored(w, c, id, j, n);
    var h := Later(id, 0, 0).h;
    var w1 := Stored(w, h, [], 0).0;
    assert id as nat in w1.slots.Keys && id as nat + 1 in w1.slots.Keys;
    TwoHeld(w1, id, id as nat + 1);
    OnlyAsks(w, h, 0, id);
    TailPass(w1, c, id, j, n);
  }

  /** One request for every other fragment and the tail, and one for each round after the first. */
  lemma {:induction false} SkipsThenRounds(c: Config, id: u64, n: u16) returns (es: seq<Event>)
    requires id as nat + 1 < 0x1_0000_0000_0000_0000 && n >= 2
    requires c.maxHeld >= 2 && 1 <= c.maxNackRounds < 65535
    ensures AtMost(es, id, n) && |SentFor(c, es, id)| == c.maxNackRounds - 1 + (n + 1) / 2
  {
    var j := n / 2;
    var before := AllSkips(c, id, n, j);
    var e := Later(id, 0, 0);
    TailStep(Run(c, before).0, c, id, j, n, e);
    RunGrows(c, before, e, id);
    AtMostGrows(before, e, id, n);
    assert id as nat in Run(c, before).0.slots.Keys;
    var (sent, left) := ((n + 1) / 2, c.maxNackRounds - 1);
    var t;
    es, t := AllRounds(c, before + [e], id, n, Some(n), 1, 1, 0, sent, left);
  }

  // ---- the limit is reached ----

  /** Some run brings as many requests as any can. */
  lemma {:induction false} MostIsReached(c: Config, id: u64, n: u16) returns (es: seq<Event>)
    requires id as nat + 1 < 0x1_0000_0000_0000_0000 && c.maxHeld >= 2 && 1 <= c.maxNackRounds < 65535
    ensures AtMost(es, id, n) && |SentFor(c, es, id)| == MostRequests(c, id, n)
  {
    if n >= 2 && (n >= 3 || !CanBeUnknown(c, id)) {
      es := SkipsThenRounds(c, id, n);
    } else if n == 2 {
      es := WholeThenHalf(c, id, n);
    } else if CanBeUnknown(c, id) {
      var t;
      es, t := WholeRounds(c, id, n);
    } else {
      es := [];
    }
  }

  /**
   * The rounds bound the requests for a frame, in every run, if and only if the frame is in one piece, or
   * in two and never tracked before one of them arrives.
   */
  lemma {:induction false} RoundsBoundIff(c: Config, id: u64, n: nat)
    requires id as nat + 1 < 0x1_0000_0000_0000_0000 && c.maxHeld >= 2 && 1 <= c.maxNackRounds < 65535
    ensures (forall es :: AtMost(es, id, n) ==> |SentFor(c, es, id)| <= c.maxNackRounds)
            <==> n <= 1 || (n == 2 && !CanBeUnknown(c, id))
  {
    if n <= 1 || (n == 2 && !CanBeUnknown(c, id)) {
      forall es | AtMost(es, id, n) ensures |SentFor(c, es, id)| <= c.maxNackRounds {
        RunTallied(c, es, id, n);
      }
    } else {
      var es := MostIsReached(c, id, if n == 2 then 2 else 3);
      assert AtMost(es, id, n);
    }
  }
}
