/**
 * The receive window's clock: a caller that sleeps until `NextDeadline` misses nothing and never
 * wakes for nothing, and no held frame is ever left waiting without a reason.
 */
module WindowTimers {
  import opened Prelude
  import opened Wire
  import opened Fragments
  import opened WindowModel
  import opened WindowSteps
  import opened WindowInvariant
  import opened WindowRuns

  // ---- what the request pass asks for ----

  lemma {:induction false} RequestsForEmpty(w: Window, ids: set<nat>, now: nat)
    requires WellShaped(w) && ids <= w.slots.Keys
    ensures RequestsFor(w, ids, now) == [] <==> forall id :: id in ids ==> Request(w, id, now).1.None?
  {
    if ids != {} {
      var least := Least(ids);
      RequestsForEmpty(w, ids - {least}, now);
      assert forall id :: id in ids <==> id == least || id in ids - {least};
    }
  }

  lemma {:induction false} NacksEmpty(w: Window, now: nat)
    requires WellShaped(w)
    ensures RequestMissing(w, now).1 == [] <==> forall id :: id in w.slots ==> Request(w, id, now).1.None?
  {
    RequestsForEmpty(w, w.slots.Keys, now);
    assert forall id :: id in w.slots <==> id in w.slots.Keys;
  }

  /** A repeat request for `id` is due. */
  predicate RetryReady(w: Window, id: nat, now: nat)
    requires WellShaped(w) && id in w.slots
  {
    Timed(w, id) && WillRetry(w, id) && RetryDue(w, w.slots[id], now)
  }

  lemma {:induction false} NotYetAskedEmpty(s: Slot, missing: seq<nat>)
    requires forall i :: 0 <= i < |missing| ==> missing[i] < |s.asked|
    requires forall k :: k in missing ==> s.asked[k]
    ensures NotYetAsked(s, missing) == []
  {
    if missing != [] {
      assert missing[0] in missing && forall k :: k in missing[1..] ==> k in missing;
      NotYetAskedEmpty(s, missing[1..]);
    }
  }

  /** Between calls, the request pass asks for a slot exactly when its repeat is due. */
  lemma {:induction false} RequestIffRetry(w: Window, id: nat, now: nat)
    requires Inv(w) && WellShaped(w) && id in w.slots
    ensures Request(w, id, now).1.Some? <==> RetryReady(w, id, now)
  {
    var s := w.slots[id];
    assert SlotOk(id, s) && Shaped(s);
    if Chased(w, id) {
      assert OnTheClock(w, id);
      if s.fragTotal.Some? {
        var missing := Missing(s, TailKnown(w, id));
        assert forall i :: 0 <= i < |missing| ==> missing[i] in missing;
        NotYetAskedEmpty(s, missing);
      }
    }
  }

  // ---- deadlines ----

  predicate SomethingDue(w: Window, now: nat)
    requires WellShaped(w)
  {
    Expired(w, now) != {} || (exists id :: id in w.slots && RetryReady(w, id, now)) || KeyRetryDue(w, now)
  }

  lemma {:induction false} GiveUpDeadline(w: Window, id: nat)
    requires WellShaped(w) && id in w.slots && Timed(w, id)
    ensures GiveUpAt(w, id) in Deadlines(w)
  {
    assert id in w.slots.Keys;
  }

  lemma {:induction false} RetryDeadline(w: Window, id: nat)
    requires WellShaped(w) && id in w.slots && Timed(w, id) && WillRetry(w, id)
    ensures RetryAt(w, id) in Deadlines(w)
  {
    assert id in w.slots.Keys;
  }

  lemma {:induction false} DueIffDeadline(w: Window, now: nat)
    requires WellShaped(w)
    ensures SomethingDue(w, now) <==> NextDeadline(w).Some? && NextDeadline(w).value <= now
  {
    if SomethingDue(w, now) {
      if Expired(w, now) != {} {
        var id :| id in Expired(w, now);
        GiveUpDeadline(w, id);
      } else if exists id :: id in w.slots && RetryReady(w, id, now) {
        var id :| id in w.slots && RetryReady(w, id, now);
        RetryDeadline(w, id);
      } else {
        assert w.keyAsked.value + w.config.keyframeRetry in KeyTimes(w);
      }
    }
    if NextDeadline(w).Some? && NextDeadline(w).value <= now {
      var d := Least(Deadlines(w));
      if id :| id in w.slots && Timed(w, id) && d == GiveUpAt(w, id) {
        assert id in Expired(w, now);
      } else if id :| id in w.slots && Timed(w, id) && WillRetry(w, id) && d == RetryAt(w, id) {
        assert RetryReady(w, id, now);
      }
    }
  }

  lemma {:induction false} KeyRetryCarries(w: Window, w': Window, now: nat)
    requires SameFrames(w, w')
    ensures KeyRetryDue(w', now) <==> KeyRetryDue(w, now)
  {
    assert w'.slots == map[] <==> w'.slots.Keys == {};
    assert w.slots == map[] <==> w.slots.Keys == {};
    assert forall k :: k in w'.slots <==> k in w.slots.Keys;
  }

  lemma {:induction false} ExpiryIsLoud(w: Window, now: nat)
    requires Inv(w) && WellShaped(w) && Expired(w, now) != {}
    ensures GiveUpExpired(w, now).1.lost > 0
  {
    var id := Greatest(Expired(w, now));
    GiveUpInv(w, id, now);
    assert id in LostBelow(w, id + 1);
  }

  lemma {:induction false} RequestsIffRetry(w: Window, now: nat)
    requires Inv(w) && WellShaped(w)
    ensures RequestMissing(w, now).1 != [] <==> exists id :: id in w.slots && RetryReady(w, id, now)
  {
    forall id | id in w.slots ensures Request(w, id, now).1.Some? <==> RetryReady(w, id, now) {
      RequestIffRetry(w, id, now);
    }
    NacksEmpty(w, now);
  }

  /** A poll puts something out exactly when something is due. */
  lemma {:induction false} PollSilent(w: Window, now: nat)
    requires Inv(w) && WellShaped(w)
    ensures Poll(w, now).1 == NOTHING <==> !SomethingDue(w, now)
  {
    if Expired(w, now) != {} {
      ExpiryIsLoud(w, now);
    } else {
      RequestsIffRetry(w, now);
      RequestBase(w, now);
      KeyRetryCarries(w, RequestMissing(w, now).0, now);
    }
  }

  /**
   * Timer exactness: in every reachable state a poll at `now` has something to say if and only if
   * `now` has reached the next deadline.
   */
  lemma {:induction false} PollIffDeadline(c: Config, es: seq<Event>, now: nat)
    ensures var w := Run(c, es).0;
            Poll(w, now).1 != NOTHING <==> NextDeadline(w).Some? && NextDeadline(w).value <= now
  {
    var w := Run(c, es).0;
    PollSilent(w, now);
    DueIffDeadline(w, now);
  }

  // ---- progress: a poll moves every deadline past itself ----

  predicate PositiveIntervals(w: Window) {
    RetryInterval(w.config, w.rtt) > 0 && GiveUpAfter(w.config, w.rtt) > 0 && w.config.keyframeRetry > 0
  }

  lemma {:induction false} ExpiredAfterGiveUp(w: Window, id: nat, now: nat, k: nat)
    requires WellShaped(w) && WellShaped(Broken(w, id, now)) && k in Expired(Broken(w, id, now), now)
    ensures k > id && k in Expired(w, now)
  {
    forall j | j in w.slots && j > k ensures !w.slots[j].isKey {
      assert j in Broken(w, id, now).slots;
    }
  }

  lemma {:induction false} NothingExpires(w: Window, now: nat)
    requires Inv(w) && WellShaped(w)
    ensures var w1 := GiveUpExpired(w, now).0;
            Inv(w1) && WellShaped(w1) && Expired(w1, now) == {} && w1.config == w.config && w1.rtt == w.rtt
  {
    if Expired(w, now) != {} {
      var g := Greatest(Expired(w, now));
      GiveUpInv(w, g, now);
      SubsetSize(Broken(w, g, now).slots.Keys, w.slots.Keys);
      forall k | k in Expired(Broken(w, g, now), now) ensures k > g && k in Expired(w, now) {
        ExpiredAfterGiveUp(w, g, now, k);
      }
    }
  }

  /** What the request pass does to a slot's clocks. */
  lemma {:induction false} RequestSlotTimes(w: Window, id: nat, now: nat)
    requires Inv(w) && WellShaped(w) && id in w.slots
    ensures var (r, ask) := Request(w, id, now); var s := w.slots[id];
            && (r.missingSince.Some? ==> r.missingSince == s.missingSince)
            && (ask.Some? ==> r.lastNack == Some(now))
            && (ask.None? ==> r.lastNack == s.lastNack && r.nackRounds == s.nackRounds)
  {
    var s := w.slots[id];
    assert SlotOk(id, s) && Shaped(s);
    if Chased(w, id) { assert OnTheClock(w, id); RequestIffRetry(w, id, now); }
  }

  lemma {:induction false} RequestSettlesOne(w: Window, id: nat, now: nat)
    requires Inv(w) && WellShaped(w) && PositiveIntervals(w) && Expired(w, now) == {} && id in w.slots
    requires WellShaped(RequestMissing(w, now).0) && SameFrames(w, RequestMissing(w, now).0)
    ensures var w1 := RequestMissing(w, now).0; id !in Expired(w1, now) && !RetryReady(w1, id, now)
  {
    var w1 := RequestMissing(w, now).0;
    SameRecoverable(w, w1, id);
    RequestIffRetry(w, id, now);
    RequestSlotTimes(w, id, now);
    assert id !in Expired(w, now);
  }

  lemma {:induction false} PositiveStays(w: Window, w1: Window)
    requires PositiveIntervals(w) && w1.config == w.config && w1.rtt == w.rtt
    ensures PositiveIntervals(w1)
  {
  }

  /** With positive intervals a poll leaves no deadline at or before its own time. */
  lemma {:induction false} PollLeavesNothingDue(w: Window, now: nat)
    requires Inv(w) && WellShaped(w) && PositiveIntervals(w)
    ensures var w' := Poll(w, now).0; WellShaped(w') && !SomethingDue(w', now)
  {
    NothingExpires(w, now);
    var w1 := GiveUpExpired(w, now).0;
    PositiveStays(w, w1);
    RequestBase(w1, now);
    var w2 := RequestMissing(w1, now).0;
    forall id | id in w2.slots ensures id !in Expired(w2, now) && !RetryReady(w2, id, now) {
      RequestSettlesOne(w1, id, now);
    }
    NothingDueAfterReask(w2, now);
  }

  lemma {:induction false} NothingDueAfterReask(w: Window, now: nat)
    requires WellShaped(w) && w.config.keyframeRetry > 0 && Expired(w, now) == {}
    requires forall id :: id in w.slots ==> !RetryReady(w, id, now)
    ensures var w' := if KeyRetryDue(w, now) then w.(keyAsked := Some(now)) else w;
            WellShaped(w') && !SomethingDue(w', now)
  {
    var w' := if KeyRetryDue(w, now) then w.(keyAsked := Some(now)) else w;
    assert Expired(w', now) == Expired(w, now);
    forall id | id in w'.slots ensures !RetryReady(w', id, now) {
      assert !RetryReady(w, id, now);
    }
  }

  /** The caller never spins: the deadline after a poll lies beyond it, or there is none. */
  lemma {:induction false} PollAdvances(c: Config, es: seq<Event>, now: nat)
    requires PositiveIntervals(Run(c, es).0)
    ensures var w' := Poll(Run(c, es).0, now).0;
            WellShaped(w') && (NextDeadline(w').None? || NextDeadline(w').value > now)
  {
    var w := Run(c, es).0;
    PollLeavesNothingDue(w, now);
    DueIffDeadline(Poll(w, now).0, now);
  }
}
