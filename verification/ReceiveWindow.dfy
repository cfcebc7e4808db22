/**
 * The receiver as it runs: one object with mutable fields, whose loops are proved to compute the
 * functions of `WindowModel` and `WindowSteps`. A ghost history of calls makes every theorem about
 * runs a theorem about each live object.
 */
module ReceiveWindow {
  import opened Prelude
  import opened Wire
  import opened Fragments
  import opened WindowModel
  import opened WindowSteps
  import opened WindowInvariant
  import opened WindowRuns

  /** What the window's calls add to, until the caller clears it. */
  class ReceiveOutput {
    var frames: seq<Frame>
    var arrived: seq<ArrivedFrame>
    var nacks: seq<Nack>
    var lost: nat
    var needKey: bool

    constructor ()
      ensures Value() == NOTHING
    {
      frames, arrived, nacks, lost, needKey := [], [], [], 0, false;
    }

    function Value(): Output
      reads this
    {
      Output(frames, arrived, nacks, lost, needKey)
    }

    method Clear()
      modifies this
      ensures Value() == NOTHING
    {
      frames, arrived, nacks, lost, needKey := [], [], [], 0, false;
    }
  }

  lemma {:induction false} ReleaseTakesNext(w: Window, before: seq<Frame>)
    requires NextReady(w)
    ensures Release(w).0 == Release(TakeNext(w)).0
    ensures before + Release(w).1 == (before + [w.slots[w.nextId.value].complete.value]) + Release(TakeNext(w)).1
  {
  }

  lemma {:induction false} ReleaseTakesKey(w: Window, id: nat, before: seq<Frame>)
    requires !NextReady(w) && CompleteKeys(w) != {} && id == Least(CompleteKeys(w))
    ensures Release(w).0 == Release(TakeKey(w, id)).0
    ensures before + Release(w).1 == (before + [w.slots[id].complete.value]) + Release(TakeKey(w, id)).1
  {
  }

  lemma {:induction false} PlacedOutput(before: Output, loss: Loss, placed: Output)
    ensures Plus(before.(lost := before.lost + loss.lost, needKey := before.needKey || loss.needKey), placed)
         == Plus(before, WithLoss(loss, placed))
  {
  }

  lemma {:induction false} SettledOutput(before: Output, arrived: seq<ArrivedFrame>, settled: Output)
    requires settled.arrived == []
    ensures Plus(before.(arrived := before.arrived + arrived), settled)
         == Plus(before, settled.(arrived := arrived))
  {
  }

  lemma {:induction false} SettleNoArrivals(w: Window, now: nat)
    requires WellShaped(w)
    ensures WindowSteps.Settle(w, now).1.arrived == []
  {
    ReleaseKeeps(w);
    var w1 := WindowModel.Release(w).0;
    assert WellShaped(w1);
    EnforceNoArrivals(WindowModel.RequestMissing(w1, now).0, now);
  }

  lemma {:induction false} GiveUpExpiredKeepsShape(w: Window, now: nat)
    requires WellShaped(w)
    ensures WellShaped(WindowSteps.GiveUpExpired(w, now).0)
  {
    if Expired(w, now) != {} { GiveUpKeeps(w, Greatest(Expired(w, now)), now); }
  }

  lemma {:induction false} GivenQuiet(w: Window, now: nat)
    requires WellShaped(w)
    ensures GiveUpExpired(w, now).1.nacks == [] && GiveUpExpired(w, now).1.arrived == []
  {
  }

  /** One more skipped id tracked. */
  lemma {:induction false} FillGapStep(w: Window, from: nat, id: nat, now: nat)
    requires from < id
    ensures var part := FillGap(w, from, id, now).slots;
            FillGap(w, from, id + 1, now).slots ==
              if NotStale(w, id)
              then part[id := GapSlot(part, id, now)]
              else part
  {
    var gap := Gap(w, from, id);
    assert Gap(w, from, id + 1) == if NotStale(w, id) then gap + {id} else gap;
    assert id !in gap;
  }

  lemma {:induction false} PlusNothing(a: Output)
    ensures Plus(a, NOTHING) == a && Plus(NOTHING, a) == a
  {
  }

  lemma {:induction false} PlusAssociates(a: Output, b: Output, c: Output)
    ensures Plus(Plus(a, b), c) == Plus(a, Plus(b, c))
  {
  }

  /** The first of the remaining slots takes its turn in the request pass. */
  lemma {:induction false} RequestsForStep(w: Window, left: set<nat>, id: nat, now: nat, before: seq<Nack>)
    requires WellShaped(w) && left <= w.slots.Keys && IsLeast(id, left)
    ensures before + RequestsFor(w, left, now) ==
              (before + (if Request(w, id, now).1.Some? then [Nack(id, Request(w, id, now).1.value)] else []))
              + RequestsFor(w, left - {id}, now)
  {
    LeastIs(id, left);
  }

  class ReceiveWindow {
    const config: Config
    var slots: map<nat, Slot>
    var nextId: Option<nat>
    var needKey: bool
    var highest: Option<nat>
    var keyAsked: Option<nat>
    var rtt: nat
    var lost: nat
    var recovered: nat
    /** Every call so far. */
    ghost var history: seq<Event>

    function State(): Window
      reads this
    {
      Window(config, slots, nextId, needKey, highest, keyAsked, rtt, lost, recovered)
    }

    /** The fields are what the calls so far make them. */
    ghost predicate Valid()
      reads this
    {
      State() == Run(config, history).0
    }

    /** Whatever calls were made on the object, the window's invariant holds of it. */
    lemma {:induction false} ValidKeeps()
      requires Valid()
      ensures Inv(State()) && WellShaped(State())
    {
    }

    constructor (c: Config)
      ensures Valid() && config == c && history == [] && State() == New(c)
    {
      config := c;
      slots, nextId, needKey, highest, keyAsked := map[], None, true, None, None;
      rtt, lost, recovered := 20_000_000, 0, 0;
      history := [];
    }

    // ---- dropping ----

    method DropBelow(id: nat) returns (dropped: nat)
      modifies this`slots
      ensures State() == WindowModel.DropBelow(old(State()), id)
      ensures dropped == |LostBelow(old(State()), id)|
    {
      dropped := |set k | k in slots && k < id && slots[k].complete.None?|;
      slots := map k | k in slots && k >= id :: slots[k];
    }

    method BreakChain(floor: nat, now: nat, out: ReceiveOutput)
      modifies this`nextId, this`keyAsked, this`needKey, out`needKey
      ensures State() == WindowModel.BreakChain(old(State()), floor, now)
      ensures out.needKey == (old(out.needKey) || AsksOnBreak(old(State())))
    {
      nextId := Some(if nextId.Some? then Max(nextId.value, floor) else floor);
      if !needKey || keyAsked.None? {
        out.needKey := true;
        keyAsked := Some(now);
      }
      needKey := true;
    }

    // ---- handing out ----

    method HandOutNext(out: ReceiveOutput)
      requires NextReady(State())
      modifies this`slots, this`nextId, out`frames
      ensures State() == TakeNext(old(State()))
      ensures out.frames == old(out.frames) + [old(slots[nextId.value]).complete.value]
    {
      out.frames := out.frames + [slots[nextId.value].complete.value];
      slots := slots - {nextId.value};
      nextId := Some(nextId.value + 1);
    }

    method HandOutKey(id: nat, out: ReceiveOutput)
      requires id in slots && slots[id].complete.Some?
      modifies this`slots, this`nextId, this`needKey, this`keyAsked, out`frames
      ensures State() == TakeKey(old(State()), id)
      ensures out.frames == old(out.frames) + [old(slots[id]).complete.value]
    {
      var superseded := DropBelow(id);
      out.frames := out.frames + [slots[id].complete.value];
      slots := slots - {id};
      nextId := Some(id + 1);
      needKey := false;
      keyAsked := None;
      assert slots == TakeKey(old(State()), id).slots;
    }

    method Release(out: ReceiveOutput)
      modifies this`slots, this`nextId, this`needKey, this`keyAsked, out`frames
      ensures State() == WindowModel.Release(old(State())).0
      ensures out.frames == old(out.frames) + WindowModel.Release(old(State())).1
    {
      ghost var start := State();
      ghost var before := out.frames;
      while true
        invariant WindowModel.Release(start).0 == WindowModel.Release(State()).0
        invariant before + WindowModel.Release(start).1 == out.frames + WindowModel.Release(State()).1
        decreases slots.Keys
      {
        ghost var w := State();
        ghost var sofar := out.frames;
        if !needKey && nextId.Some? && nextId.value in slots && slots[nextId.value].complete.Some? {
          TakeNextShrinks(w);
          HandOutNext(out);
          ReleaseTakesNext(w, sofar);
          continue;
        }
        var keys := set k | k in slots && slots[k].isKey && slots[k].complete.Some? && slots[k].complete.value.isKey;
        assert keys == CompleteKeys(w);
        if keys == {} {
          break;
        }
        HasLeast(keys);
        var id: nat :| id in keys && IsLeast(id, keys);
        LeastIs(id, keys);
        TakeKeyShrinks(w, id);
        HandOutKey(id, out);
        ReleaseTakesKey(w, id, sofar);
      }
    }

    // ---- giving up ----

    method GiveUpThrough(id: nat, now: nat, out: ReceiveOutput)
      modifies this`slots, this`nextId, this`needKey, this`keyAsked, this`lost, out`frames, out`lost, out`needKey
      ensures State() == WindowModel.GiveUpThrough(old(State()), id, now).0
      ensures out.Value() == Plus(old(out.Value()), WindowModel.GiveUpThrough(old(State()), id, now).1)
    {
      var dropped := DropBelow(id + 1);
      lost := lost + dropped;
      out.lost := out.lost + dropped;
      BreakChain(id + 1, now, out);
      assert State() == Broken(old(State()), id, now);
      Release(out);
    }

    method EnforceCapacity(now: nat, out: ReceiveOutput)
      modifies this`slots, this`nextId, this`needKey, this`keyAsked, this`lost, out`frames, out`lost, out`needKey
      ensures State() == WindowSteps.EnforceCapacity(old(State()), now).0
      ensures out.Value() == Plus(old(out.Value()), WindowSteps.EnforceCapacity(old(State()), now).1)
    {
      ghost var start := State();
      ghost var before := out.Value();
      while |slots| > config.maxHeld
        invariant WindowSteps.EnforceCapacity(start, now).0 == WindowSteps.EnforceCapacity(State(), now).0
        invariant Plus(before, WindowSteps.EnforceCapacity(start, now).1)
               == Plus(out.Value(), WindowSteps.EnforceCapacity(State(), now).1)
        decreases slots.Keys
      {
        assert slots.Keys != {};
        HasLeast(slots.Keys);
        var oldest: nat :| oldest in slots.Keys && IsLeast(oldest, slots.Keys);
        ghost var w := State();
        assert oldest == Least(w.slots.Keys);
        GiveUpKeeps(w, oldest, now);
        ghost var sofar := out.Value();
        GiveUpThrough(oldest, now, out);
        PlusAssociates(sofar, WindowModel.GiveUpThrough(w, oldest, now).1, WindowSteps.EnforceCapacity(State(), now).1);
      }
      PlusNothing(out.Value());
    }

    method GiveUpExpired(now: nat, out: ReceiveOutput)
      requires WellShaped(State())
      modifies this`slots, this`nextId, this`needKey, this`keyAsked, this`lost, out`frames, out`lost, out`needKey
      ensures State() == WindowSteps.GiveUpExpired(old(State()), now).0
      ensures out.Value() == Plus(old(out.Value()), WindowSteps.GiveUpExpired(old(State()), now).1)
    {
      var w := State();
      var giveUp := GiveUpAfter(config, rtt);
      var expired := set id | id in slots && Recoverable(w, id) && IsMissing(slots[id], TailKnown(w, id))
                              && slots[id].missingSince.Some? && now >= slots[id].missingSince.value + giveUp;
      assert expired == Expired(w, now);
      if expired != {} {
        HasGreatest(expired);
        var id: nat :| id in expired && IsGreatest(id, expired);
        assert id == Greatest(Expired(w, now));
        GiveUpThrough(id, now, out);
      } else {
        PlusNothing(out.Value());
      }
    }

    // ---- asking ----

    /** Whether to ask for everything missing again, and what to ask for. */
    method ChooseHoles(s: Slot, missing: seq<nat>, now: nat) returns (retry: bool, ask: seq<nat>)
      requires forall i :: 0 <= i < |missing| ==> missing[i] < |s.asked|
      ensures retry == (RetryDue(State(), s, now) && s.nackRounds < config.maxNackRounds)
      ensures ask == if retry then missing else NotYetAsked(s, missing)
    {
      var retryDue := s.lastNack.Some? && now >= s.lastNack.value + RetryInterval(config, rtt);
      retry := retryDue && s.nackRounds < config.maxNackRounds;
      if retry {
        ask := missing;
      } else {
        ask := NotYetAsked(s, missing);
      }
    }

    /** Asks for holes of a sized slot. */
    method RequestHolesOf(id: nat, missing: seq<nat>, now: nat, out: ReceiveOutput)
      requires id in slots && forall i :: 0 <= i < |missing| ==> missing[i] < |slots[id].asked|
      modifies this`slots, out`nacks
      ensures var retry := MayRetry(old(State()), old(slots[id]), now);
              var (s, ask) := RequestHoles(old(slots[id]), missing, retry, now);
              && slots == old(slots)[id := s]
              && out.nacks == old(out.nacks) + (if ask.Some? then [Nack(id, ask.value)] else [])
    {
      var s := slots[id];
      var retry, ask := ChooseHoles(s, missing, now);
      if s.missingSince.None? {
        s := s.(missingSince := Some(now));
      }
      if retry {
        s := s.(nackRounds := s.nackRounds + 1);
      }
      if ask == [] {
        slots := slots[id := s];
        return;
      }
      if s.nackRounds == 0 {
        s := s.(nackRounds := 1);
      }
      s := s.(asked := MarkAsked(s.asked, ask), lastNack := Some(now));
      slots := slots[id := s];
      out.nacks := out.nacks + [Nack(id, ask)];
    }

    /** Asks for a frame of unknown size. */
    method RequestWholeOf(id: nat, now: nat, out: ReceiveOutput)
      requires id in slots && Shaped(slots[id]) && slots[id].fragTotal.None?
      modifies this`slots, out`nacks
      ensures var (s, ask) := RequestSlot(old(slots[id]), false, RetryDue(old(State()), old(slots[id]), now),
                                          config.maxNackRounds, now);
              && slots == old(slots)[id := s]
              && out.nacks == old(out.nacks) + (if ask.Some? then [Nack(id, ask.value)] else [])
    {
      var s := slots[id];
      var retryDue := s.lastNack.Some? && now >= s.lastNack.value + RetryInterval(config, rtt);
      if (!s.askedWhole || retryDue) && s.nackRounds < config.maxNackRounds {
        s := s.(askedWhole := true, nackRounds := s.nackRounds + 1, lastNack := Some(now));
        if s.missingSince.None? {
          s := s.(missingSince := Some(now));
        }
        slots := slots[id := s];
        out.nacks := out.nacks + [Nack(id, [])];
      }
    }

    /** Asks for what a frame of known size lacks. */
    method RequestPartsOf(id: nat, tailKnown: bool, now: nat, out: ReceiveOutput)
      requires id in slots && Shaped(slots[id]) && slots[id].fragTotal.Some?
      modifies this`slots, out`nacks
      ensures var (s, ask) := RequestSlot(old(slots[id]), tailKnown, RetryDue(old(State()), old(slots[id]), now),
                                          config.maxNackRounds, now);
              && slots == old(slots)[id := s]
              && out.nacks == old(out.nacks) + (if ask.Some? then [Nack(id, ask.value)] else [])
    {
      var missing := Missing(slots[id], tailKnown);
      assert forall i :: 0 <= i < |missing| ==> missing[i] in missing;
      if missing == [] {
        slots := slots[id := slots[id].(missingSince := None)];
        return;
      }
      RequestHolesOf(id, missing, now, out);
    }

    /** One slot's turn in the request pass. */
    method RequestOne(id: nat, now: nat, out: ReceiveOutput)
      requires WellShaped(State()) && id in slots
      modifies this`slots, out`nacks
      ensures slots == old(slots)[id := Request(old(State()), id, now).0]
      ensures var ask := Request(old(State()), id, now).1;
              out.nacks == old(out.nacks) + (if ask.Some? then [Nack(id, ask.value)] else [])
    {
      var w := State();
      var s := slots[id];
      assert Shaped(s);
      if !(Recoverable(w, id) && WorthAsking(w, s)) {
        return;
      }
      if s.fragTotal.None? {
        RequestWholeOf(id, now, out);
      } else {
        RequestPartsOf(id, TailKnown(w, id), now, out);
      }
    }

    method RequestMissing(now: nat, out: ReceiveOutput)
      requires WellShaped(State())
      modifies this`slots, out`nacks
      ensures State() == WindowModel.RequestMissing(old(State()), now).0
      ensures out.nacks == old(out.nacks) + WindowModel.RequestMissing(old(State()), now).1
    {
      ghost var start := State();
      ghost var before := out.nacks;
      var left := slots.Keys;
      while left != {}
        invariant MidPass(start, State(), left, now)
        invariant out.nacks + RequestsFor(start, left, now) == before + WindowModel.RequestMissing(start, now).1
        decreases left
      {
        HasLeast(left);
        var id: nat :| id in left && IsLeast(id, left);
        RequestsForStep(start, left, id, now, out.nacks);
        SameTurn(start, State(), left, id, now);
        MidPassStep(start, State(), left, id, now, Request(start, id, now).0);
        ghost var w := State();
        RequestOne(id, now, out);
        assert State() == w.(slots := w.slots[id := Request(start, id, now).0]);
        left := left - {id};
      }
      assert slots == WindowModel.RequestMissing(start, now).0.slots;
    }

    // ---- taking in a fragment ----

    method MarkTails(now: nat)
      requires WellShaped(State())
      modifies this`slots
      ensures State() == WindowModel.MarkTails(old(State()), now)
    {
      ghost var start := slots;
      var left := slots.Keys;
      while left != {}
        invariant left <= slots.Keys == start.Keys
        invariant forall id :: id in slots ==> slots[id] == (if id in left then start[id] else MarkTail(start[id], now))
        decreases left
      {
        var id :| id in left;
        assert id in start && Shaped(start[id]);
        var s := slots[id];
        if s.missingSince.None? && IsMissing(s, true) {
          slots := slots[id := s.(missingSince := Some(now))];
        }
        left := left - {id};
      }
      assert slots == WindowModel.MarkTails(old(State()), now).slots;
    }

    /** Tracks one skipped frame as missing. */
    method TrackMissing(id: nat, now: nat)
      modifies this`slots
      ensures slots == old(slots)[id := GapSlot(old(slots), id, now)]
    {
      var s := if id in slots then slots[id] else UNKNOWN;
      if s.missingSince.None? {
        s := s.(missingSince := Some(now));
      }
      slots := slots[id := s];
    }

    method FillGap(from: nat, frameId: nat, now: nat)
      requires from < frameId
      modifies this`slots
      ensures State() == WindowModel.FillGap(old(State()), from, frameId, now)
    {
      ghost var start := State();
      var floor := GetOr(nextId, 0);
      assert Gap(start, from, from + 1) == {};
      for id := from + 1 to frameId
        invariant slots == WindowModel.FillGap(start, from, id, now).slots
      {
        FillGapStep(start, from, id, now);
        if id >= floor {
          TrackMissing(id, now);
        }
      }
    }

    method NoteNewFrame(frameId: nat, isKey: bool, now: nat, out: ReceiveOutput)
      requires WellShaped(State())
      modifies this`slots, this`nextId, this`needKey, this`keyAsked, this`highest, this`lost, out`lost, out`needKey
      ensures var (w, loss) := WindowModel.NoteNewFrame(old(State()), frameId, isKey, now);
              && State() == w
              && out.lost == old(out.lost) + loss.lost && out.needKey == (old(out.needKey) || loss.needKey)
    {
      ghost var w0 := NoteAsked(State(), now);
      if keyAsked.None? {
        keyAsked := Some(now);
      }
      if highest.None? {
        highest := Some(frameId);
        return;
      }
      var top := highest.value;
      if frameId <= top {
        return;
      }
      MarkTails(now);
      highest := Some(frameId);
      ghost var w1 := WindowModel.MarkTails(w0, now).(highest := Some(frameId));
      assert State() == w1;
      var gap := frameId - top - 1;
      if gap == 0 {
        return;
      }
      if gap > config.maxGap {
        var dropped := DropBelow(frameId);
        if !isKey {
          lost := lost + dropped;
          out.lost := out.lost + dropped;
          BreakChain(frameId, now, out);
        }
        return;
      }
      FillGap(top, frameId, now);
    }

    /** Stores one fragment in an open slot and assembles the frame when it was the last one. */
    method Accept(slot: Slot, h: Header, payload: Bytes, out: ReceiveOutput)
      requires WellShaped(State())
      requires Shaped(slot) && slot.fragTotal.Some? && slot.complete.None? && h.fragId < |slot.fragments|
      modifies this`slots, this`recovered, out`arrived
      ensures State() == WindowSteps.Accept(old(State()), slot, h, payload).0
      ensures out.arrived == old(out.arrived) + WindowSteps.Accept(old(State()), slot, h, payload).1
    {
      var s := slot.(isKey := slot.isKey || IsKeyframe(h));
      if h.fragId == 0 || s.received == 0 {
        s := s.(pts := h.pts);
      }
      s := s.(fragments := s.fragments[h.fragId := Some(payload)], received := s.received + 1);
      s := s.(highestFrag := if s.received == 1 then h.fragId else Max(s.highestFrag, h.fragId));
      assert s == Store(slot, h, payload);
      if s.fragTotal == Some(s.received) {
        var neededResend := s.nackRounds > 0 || s.askedWhole;
        var assembled := Assemble(s.fragments);
        var frame := Frame(h.frameId, s.isKey, s.pts, assembled);
        out.arrived := out.arrived + [ArrivedFrame(h.frameId, frame.pts, |assembled|, neededResend, frame.isKey)];
        if neededResend {
          recovered := recovered + 1;
        }
        s := s.(fragments := [], complete := Some(frame), missingSince := None);
      }
      slots := slots[h.frameId := s];
    }

    method Settle(now: nat, out: ReceiveOutput)
      requires WellShaped(State())
      modifies this`slots, this`nextId, this`needKey, this`keyAsked, this`lost, out
      ensures State() == WindowSteps.Settle(old(State()), now).0
      ensures out.Value() == Plus(old(out.Value()), WindowSteps.Settle(old(State()), now).1)
    {
      ghost var start := State();
      ghost var before := out.Value();
      ReleaseKeeps(start);
      ghost var (w1, frames) := WindowModel.Release(start);
      Release(out);
      assert State() == w1 && WellShaped(w1);
      RequestKeepsShape(w1, now);
      RequestMissing(now, out);
      ghost var here := Output(frames, [], WindowModel.RequestMissing(w1, now).1, 0, false);
      assert out.Value() == Plus(before, here);
      EnforceCapacity(now, out);
      PlusAssociates(before, here, WindowSteps.EnforceCapacity(WindowModel.RequestMissing(w1, now).0, now).1);
    }

    /** One more call joins the history. */
    lemma {:induction false} Extends(h: seq<Event>, e: Event)
      ensures Run(config, h + [e]).0 == Step(Run(config, h).0, e).0
    {
      assert (h + [e])[..|h|] == h;
    }

    method AcceptAndSettle(slot: Slot, h: Header, payload: Bytes, now: nat, out: ReceiveOutput)
      requires WellShaped(State())
      requires Shaped(slot) && slot.fragTotal.Some? && slot.complete.None? && h.fragId < |slot.fragments|
      modifies this`slots, this`nextId, this`needKey, this`keyAsked, this`lost, this`recovered, out
      ensures var (w, arrived) := WindowSteps.Accept(old(State()), slot, h, payload);
              && State() == WindowSteps.Settle(w, now).0
              && out.Value() == Plus(old(out.Value()).(arrived := old(out.arrived) + arrived), WindowSteps.Settle(w, now).1)
    {
      Accept(slot, h, payload, out);
      Settle(now, out);
    }

    /** Puts a valid fragment in its slot and lets the window settle, or refuses it. */
    method Place(h: Header, payload: Bytes, now: nat, out: ReceiveOutput) returns (r: Result<()>)
      requires WellShaped(State()) && h.fragId < h.fragTotal
      modifies this`slots, this`nextId, this`needKey, this`keyAsked, this`lost, this`recovered, out
      ensures State() == WindowSteps.Place(old(State()), h, payload, now).0
      ensures out.Value() == Plus(old(out.Value()), WindowSteps.Place(old(State()), h, payload, now).1)
      ensures r == WindowSteps.Place(old(State()), h, payload, now).2
    {
      ghost var start := State();
      ghost var before := out.Value();
      PlusNothing(before);
      var slot := if h.frameId in slots then slots[h.frameId] else UNKNOWN;
      if slot.fragTotal.None? {
        slot := Sized(slot, h.fragTotal);
      } else if slot.fragTotal != Some(h.fragTotal as nat) {
        return Err(FragmentTotalMismatch(h.frameId, slot.fragTotal.value, h.fragTotal));
      }
      assert slot == SlotFor(start, h.frameId, h.fragTotal);
      if slot.complete.Some? || slot.fragments[h.fragId].Some? {
        return Ok(());
      }
      ghost var (stored, arrived) := WindowSteps.Accept(start, slot, h, payload);
      AcceptAndSettle(slot, h, payload, now, out);
      SettleNoArrivals(stored, now);
      SettledOutput(before, arrived, WindowSteps.Settle(stored, now).1);
      return Ok(());
    }

    /** Notes a valid fragment's frame, then places the fragment. */
    method NoteAndPlace(h: Header, payload: Bytes, now: nat, out: ReceiveOutput) returns (r: Result<()>)
      requires WellShaped(State()) && h.fragId < h.fragTotal
      modifies this`slots, this`nextId, this`needKey, this`keyAsked, this`highest, this`lost, this`recovered, out
      ensures State() == WindowSteps.TakeIn(old(State()), h, payload, now).0
      ensures out.Value() == Plus(old(out.Value()), WindowSteps.TakeIn(old(State()), h, payload, now).1)
      ensures r == WindowSteps.TakeIn(old(State()), h, payload, now).2
    {
      ghost var start := State();
      ghost var before := out.Value();
      NoteKeepsShape(start, h.frameId, IsKeyframe(h), now);
      ghost var (w1, loss) := WindowModel.NoteNewFrame(start, h.frameId, IsKeyframe(h), now);
      NoteNewFrame(h.frameId, IsKeyframe(h), now, out);
      r := Place(h, payload, now, out);
      PlacedOutput(before, loss, WindowSteps.Place(w1, h, payload, now).1);
    }

    /** Takes in one fragment, apart from recording the call. */
    method TakeIn(h: Header, payload: Bytes, now: nat, out: ReceiveOutput) returns (r: Result<()>)
      requires WellShaped(State())
      modifies this`slots, this`nextId, this`needKey, this`keyAsked, this`highest, this`lost, this`recovered, out
      ensures State() == WindowSteps.Insert(old(State()), h, payload, now).0
      ensures out.Value() == Plus(old(out.Value()), WindowSteps.Insert(old(State()), h, payload, now).1)
      ensures r == WindowSteps.Insert(old(State()), h, payload, now).2
    {
      PlusNothing(out.Value());
      if Validate(h).Err? {
        return Validate(h);
      }
      if nextId.Some? && h.frameId < nextId.value {
        return Ok(());
      }
      r := NoteAndPlace(h, payload, now, out);
    }

    /** Takes in one fragment. */
    method Insert(h: Header, payload: Bytes, now: nat, out: ReceiveOutput) returns (r: Result<()>)
      requires Valid()
      modifies this, out
      ensures Valid() && history == old(history) + [Fragment(h, payload, now)]
      ensures State() == WindowSteps.Insert(old(State()), h, payload, now).0
      ensures out.Value() == Plus(old(out.Value()), WindowSteps.Insert(old(State()), h, payload, now).1)
      ensures r == WindowSteps.Insert(old(State()), h, payload, now).2
    {
      Extends(history, Fragment(h, payload, now));
      r := TakeIn(h, payload, now, out);
      history := history + [Fragment(h, payload, now)];
    }

    /** Runs the timers, apart from recording the call. */
    method RunTimers(now: nat, out: ReceiveOutput)
      requires WellShaped(State())
      modifies this`slots, this`nextId, this`needKey, this`keyAsked, this`lost, out
      ensures State() == WindowSteps.Poll(old(State()), now).0
      ensures out.Value() == Plus(old(out.Value()), WindowSteps.Poll(old(State()), now).1)
    {
      ghost var start := State();
      ghost var before := out.Value();
      GiveUpExpiredKeepsShape(start, now);
      ghost var (w1, given) := WindowSteps.GiveUpExpired(start, now);
      GiveUpExpired(now, out);
      assert State() == w1 && out.Value() == Plus(before, given);
      GivenQuiet(start, now);
      RequestMissing(now, out);
      assert State() == WindowModel.RequestMissing(w1, now).0;
      assert out.Value() == Plus(before, given.(nacks := WindowModel.RequestMissing(w1, now).1));
      AskAgain(now, out);
    }

    /** Asks for a keyframe once more when the last request has had its time. */
    method AskAgain(now: nat, out: ReceiveOutput)
      modifies this`keyAsked, out`needKey
      ensures var w := old(State()); var again := KeyRetryDue(w, now);
              && State() == (if again then w.(keyAsked := Some(now)) else w)
              && out.needKey == (old(out.needKey) || again)
    {
      if needKey && slots != map[] && !KeyInFlight(State())
         && keyAsked.Some? && now >= keyAsked.value + config.keyframeRetry {
        keyAsked := Some(now);
        out.needKey := true;
      }
    }

    /** Runs the timers. */
    method Poll(now: nat, out: ReceiveOutput)
      requires Valid()
      modifies this, out
      ensures Valid() && history == old(history) + [Tick(now)]
      ensures State() == WindowSteps.Poll(old(State()), now).0
      ensures out.Value() == Plus(old(out.Value()), WindowSteps.Poll(old(State()), now).1)
    {
      Extends(history, Tick(now));
      RunTimers(now, out);
      history := history + [Tick(now)];
    }

    method SetRtt(newRtt: nat)
      requires Valid()
      modifies this
      ensures Valid() && history == old(history) + [Rtt(newRtt)] && State() == WindowSteps.SetRtt(old(State()), newRtt)
    {
      Extends(history, Rtt(newRtt));
      history := history + [Rtt(newRtt)];
      rtt := Min(newRtt, MAX_RTT);
    }

    /** Keeps only keyframes under way and waits for one. */
    method SkipToKeyframe(now: nat)
      modifies this`slots, this`nextId, this`needKey, this`keyAsked
      ensures State() == WindowSteps.RequireKeyframe(old(State()), now)
    {
      if highest.Some? {
        slots := map id | id in slots && (id > highest.value || slots[id].isKey) :: slots[id];
      }
      needKey := true;
      keyAsked := Some(now);
      if highest.Some? {
        var floor := highest.value + 1;
        if slots != map[] {
          LeastKey(slots);
          HasLeast(slots.Keys);
          var first: nat :| first in slots.Keys && IsLeast(first, slots.Keys);
          LeastIs(first, slots.Keys);
          floor := Min(first, highest.value + 1);
        }
        assert floor == SkipFloor(slots, highest.value);
        nextId := Some(if nextId.Some? then Max(nextId.value, floor) else floor);
      }
    }

    /** The caller skipped ahead. */
    method RequireKeyframe(now: nat)
      requires Valid()
      modifies this
      ensures Valid() && history == old(history) + [SkipAhead(now)]
      ensures State() == WindowSteps.RequireKeyframe(old(State()), now)
    {
      Extends(history, SkipAhead(now));
      SkipToKeyframe(now);
      history := history + [SkipAhead(now)];
    }

    /** One slot's deadlines, folded into the earliest so far. */
    method ConsiderSlot(id: nat, next: Option<nat>, ghost ds: set<nat>) returns (r: Option<nat>)
      requires WellShaped(State()) && id in slots && IsEarliest(next, ds)
      ensures IsEarliest(r, ds + SlotDeadlines(State(), {id}))
    {
      var w := State();
      var s := slots[id];
      OneSlotDeadlines(w, id);
      r := next;
      if s.missingSince.None? || !Recoverable(w, id) || !IsMissing(s, TailKnown(w, id)) {
        assert SlotDeadlines(w, {id}) == {};
        assert ds + {} == ds;
        return;
      }
      var giveUp := s.missingSince.value + GiveUpAfter(config, rtt);
      EarlierIs(r, ds, giveUp);
      r := Earlier(r, giveUp);
      if WorthAsking(w, s) && s.nackRounds < config.maxNackRounds && s.lastNack.Some? {
        var retry := s.lastNack.value + RetryInterval(config, rtt);
        EarlierIs(r, ds + {giveUp}, retry);
        r := Earlier(r, retry);
        assert ds + {giveUp} + {retry} == ds + ({giveUp} + {retry});
      }
    }

    /** The next instant `Poll` has something to do, found by one pass over the slots. */
    method NextDeadline() returns (next: Option<nat>)
      requires WellShaped(State())
      ensures next == WindowSteps.NextDeadline(State())
    {
      var w := State();
      var left := slots.Keys;
      next := None;
      while left != {}
        invariant left <= w.slots.Keys
        invariant IsEarliest(next, SlotDeadlines(w, w.slots.Keys - left))
        decreases left
      {
        var id :| id in left;
        SlotDeadlinesGrow(w, w.slots.Keys - left, id);
        assert w.slots.Keys - (left - {id}) == (w.slots.Keys - left) + {id};
        next := ConsiderSlot(id, next, SlotDeadlines(w, w.slots.Keys - left));
        left := left - {id};
      }
      assert w.slots.Keys - left == w.slots.Keys;
      if needKey && slots != map[] && !KeyInFlight(w) && keyAsked.Some? {
        next := Earlier(next, keyAsked.value + config.keyframeRetry);
      }
      EarliestIs(next, Deadlines(w));
    }
  }

  function Earlier(next: Option<nat>, t: nat): Option<nat> {
    if next.Some? && next.value <= t then next else Some(t)
  }

  predicate IsEarliest(next: Option<nat>, ds: set<nat>) {
    if next.None? then ds == {} else IsLeast(next.value, ds)
  }

  lemma {:induction false} EarlierIs(next: Option<nat>, ds: set<nat>, t: nat)
    requires IsEarliest(next, ds)
    ensures IsEarliest(Earlier(next, t), ds + {t})
  {
  }

  /** The deadlines of the slots in `ids`. */
  function SlotDeadlines(w: Window, ids: set<nat>): set<nat>
    requires WellShaped(w) && ids <= w.slots.Keys
  {
    GiveUpTimes(w, ids) + RetryTimes(w, ids)
  }

  lemma {:induction false} GiveUpTimesGrow(w: Window, ids: set<nat>, id: nat)
    requires WellShaped(w) && ids <= w.slots.Keys && id in w.slots
    ensures GiveUpTimes(w, ids + {id}) == GiveUpTimes(w, ids) + GiveUpTimes(w, {id})
  {
  }

  lemma {:induction false} RetryTimesGrow(w: Window, ids: set<nat>, id: nat)
    requires WellShaped(w) && ids <= w.slots.Keys && id in w.slots
    ensures RetryTimes(w, ids + {id}) == RetryTimes(w, ids) + RetryTimes(w, {id})
  {
  }

  lemma {:induction false} SlotDeadlinesGrow(w: Window, ids: set<nat>, id: nat)
    requires WellShaped(w) && ids <= w.slots.Keys && id in w.slots
    ensures SlotDeadlines(w, ids + {id}) == SlotDeadlines(w, ids) + SlotDeadlines(w, {id})
  {
    GiveUpTimesGrow(w, ids, id);
    RetryTimesGrow(w, ids, id);
  }

  lemma {:induction false} OneSlotDeadlines(w: Window, id: nat)
    requires WellShaped(w) && id in w.slots
    ensures SlotDeadlines(w, {id}) ==
              (if Timed(w, id) then {w.slots[id].missingSince.value + GiveUpAfter(w.config, w.rtt)} else {})
              + (if Timed(w, id) && WillRetry(w, id)
                 then {w.slots[id].lastNack.value + RetryInterval(w.config, w.rtt)} else {})
  {
  }

  lemma {:induction false} EarliestIs(next: Option<nat>, ds: set<nat>)
    requires IsEarliest(next, ds)
    ensures next == if ds == {} then None else Some(Least(ds))
  {
    if next.Some? { LeastIs(next.value, ds); }
  }

  /** The window partway through a request pass, with the slots `left` still to come. */
  predicate MidPass(w: Window, w': Window, left: set<nat>, now: nat)
    requires WellShaped(w)
  {
    && WellShaped(w')
    && w' == w.(slots := w'.slots)
    && left <= w.slots.Keys == w'.slots.Keys
    && forall k :: k in w.slots ==> w'.slots[k] == if k in left then w.slots[k] else Request(w, k, now).0
  }

  /** Slots already passed over do not change another slot's turn. */
  lemma {:induction false} SameTurn(w: Window, w': Window, left: set<nat>, id: nat, now: nat)
    requires WellShaped(w) && MidPass(w, w', left, now) && id in left
    ensures Request(w', id, now) == Request(w, id, now)
  {
    forall k | k in w.slots ensures k in w'.slots && w'.slots[k].isKey == w.slots[k].isKey {
      assert k in w.slots.Keys;
    }
    assert forall k :: k in w'.slots <==> k in w.slots.Keys;
    assert NoLaterKey(w', id) == NoLaterKey(w, id);
  }

  lemma {:induction false} MidPassStep(w: Window, w': Window, left: set<nat>, id: nat, now: nat, r: Slot)
    requires WellShaped(w) && MidPass(w, w', left, now) && id in left && r == Request(w, id, now).0
    ensures MidPass(w, w'.(slots := w'.slots[id := r]), left - {id}, now)
  {
    RequestOneKeepsShape(w, id, now);
  }
}
