/** The sharp policy against its history: when the link was unstable, and what that makes the size do. */
module SharpGovernor {
  import opened Prelude
  import opened SizeLadder
  import opened Governor

  // ---- unstable, said of the reports ----

  /** Some congested report at or after `p` is less than a calm gap before report `k`. */
  ghost predicate Near(rs: seq<Report>, p: nat, k: nat)
    requires k < |rs|
  {
    exists j: nat :: p <= j < k && rs[j].congested && rs[k].now < rs[j].now + CALM_GAP
  }

  /** The congested reports from `p` to `i` follow one another without a calm gap. */
  ghost predicate Chain(rs: seq<Report>, p: nat, i: nat) {
    && p <= i < |rs| && rs[p].congested && rs[i].congested
    && forall k: nat :: p < k <= i && rs[k].congested ==> Near(rs, p, k)
  }

  /** A chain of congested reports ends at `i` and spans `DOWN_AFTER`. */
  ghost predicate Unstable(rs: seq<Report>, i: nat) {
    i < |rs| && exists p: nat :: Chain(rs, p, i) && rs[i].now >= rs[p].now + DOWN_AFTER
  }

  lemma {:induction false} ChainPrefix(rs: seq<Report>, n: nat, p: nat, i: nat)
    requires i < n <= |rs|
    ensures Chain(rs[..n], p, i) <==> Chain(rs, p, i)
  {
    forall k: nat | p < k <= i
      ensures Near(rs[..n], p, k) <==> Near(rs, p, k)
    {
      if Near(rs[..n], p, k) {
        var j: nat :| p <= j < k && rs[..n][j].congested && rs[..n][k].now < rs[..n][j].now + CALM_GAP;
        assert rs[j].congested && rs[k].now < rs[j].now + CALM_GAP;
      }
      if Near(rs, p, k) {
        var j: nat :| p <= j < k && rs[j].congested && rs[k].now < rs[j].now + CALM_GAP;
        assert rs[..n][j].congested && rs[..n][k].now < rs[..n][j].now + CALM_GAP;
      }
    }
    if Chain(rs[..n], p, i) {
      forall k: nat | p < k <= i && rs[k].congested
        ensures Near(rs, p, k)
      {
        assert rs[..n][k].congested;
      }
    }
  }

  lemma {:induction false} UnstablePrefix(rs: seq<Report>, n: nat, i: nat)
    requires i < n <= |rs|
    ensures Unstable(rs[..n], i) <==> Unstable(rs, i)
  {
    forall p: nat
      ensures Chain(rs[..n], p, i) <==> Chain(rs, p, i)
    {
      ChainPrefix(rs, n, p, i);
    }
  }

  // ---- what the link remembers ----

  /** The last congested report. */
  function LastCongested(rs: seq<Report>): (c: Option<nat>)
    ensures c.Some? ==> c.value < |rs| && rs[c.value].congested
    ensures forall k :: 0 <= k < |rs| && rs[k].congested ==> c.Some? && k <= c.value
  {
    if rs == [] then None
    else if rs[|rs| - 1].congested then Some(|rs| - 1)
    else
      var before := rs[..|rs| - 1];
      assert forall k :: 0 <= k < |rs| - 1 ==> before[k] == rs[k];
      LastCongested(before)
  }

  /** Where the current run of congestion began. */
  function RunStart(rs: seq<Report>): (p: Option<nat>)
    ensures p.Some? ==> p.value < |rs|
  {
    if rs == [] then None
    else
      var before := rs[..|rs| - 1];
      var now := rs[|rs| - 1].now;
      if !rs[|rs| - 1].congested then RunStart(before)
      else
        var c := LastCongested(before);
        if c.Some? && Since(now, before[c.value].now) < CALM_GAP then RunStart(before) else Some(|rs| - 1)
  }

  predicate Sharply(s: Session, rs: seq<Report>) {
    SessionOk(s) && s.policy == Sharp && Ordered(rs)
  }

  function TimeOf(rs: seq<Report>, k: Option<nat>): Option<nat>
    requires k.Some? ==> k.value < |rs|
  {
    if k.None? then None else Some(rs[k.value].now)
  }

  lemma {:induction false} TimesGrow(rs: seq<Report>)
    requires rs != []
    ensures var (before, r) := (rs[..|rs| - 1], rs[|rs| - 1]);
            var (congested, started) := (TimeOf(before, LastCongested(before)), TimeOf(before, RunStart(before)));
            && TimeOf(rs, LastCongested(rs)) == (if r.congested then Some(r.now) else congested)
            && TimeOf(rs, RunStart(rs)) == if !r.congested || Within(congested, r.now, CALM_GAP) then started else Some(r.now)
  {
    assert forall k :: 0 <= k < |rs| - 1 ==> rs[..|rs| - 1][k] == rs[k];
  }

  /** The link's two fields are the times of those two reports. */
  lemma {:induction false} LinkRemembers(s: Session, rs: seq<Report>)
    requires Sharply(s, rs)
    ensures var l := Run(s, Started(0), rs).link;
            && l.lastCongested == TimeOf(rs, LastCongested(rs))
            && l.runStart == TimeOf(rs, RunStart(rs))
  {
    if rs != [] {
      LinkRemembers(s, rs[..|rs| - 1]);
      ReportStep(s, rs);
      TimesGrow(rs);
    }
  }

  /** The link after a run, in terms of the link before its last report. */
  lemma {:induction false} ReportStep(s: Session, rs: seq<Report>)
    requires SessionOk(s) && s.policy == Sharp && rs != []
    ensures var (n, l) := (|rs| - 1, Run(s, Started(0), rs).link);
            var m := OnReport(Run(s, Started(0), rs[..n]).link, rs[n].congested, rs[n].now).0;
            && l.lastCongested == m.lastCongested && l.runStart == m.runStart && l.lastUnstable == m.lastUnstable
            && m.retryAfter == Run(s, Started(0), rs[..n]).link.retryAfter
  {
  }

  lemma {:induction false} RunStartExists(rs: seq<Report>)
    requires Ordered(rs) && LastCongested(rs).Some?
    ensures RunStart(rs).Some? && RunStart(rs).value <= LastCongested(rs).value
  {
    if !rs[|rs| - 1].congested || LastCongested(rs[..|rs| - 1]).Some? {
      RunStartExists(rs[..|rs| - 1]);
    }
  }

  /** A chain up to the new report is a chain up to the one before it, without a gap between them. */
  lemma {:induction false} ChainExtends(rs: seq<Report>, c: nat, p: nat)
    requires Ordered(rs) && |rs| > 0 && rs[|rs| - 1].congested
    requires c < |rs| - 1 && LastCongested(rs[..|rs| - 1]) == Some(c) && p < |rs| - 1
    ensures Chain(rs, p, |rs| - 1) <==> Chain(rs, p, c) && Since(rs[|rs| - 1].now, rs[c].now) < CALM_GAP
  {
    var n := |rs| - 1;
    assert rs[..n][c].congested;
    assert forall k :: 0 <= k < n ==> rs[..n][k] == rs[k];
    if Chain(rs, p, n) {
      assert Near(rs, p, n);
      var j: nat :| p <= j < n && rs[j].congested && rs[n].now < rs[j].now + CALM_GAP;
      assert rs[..n][j].congested;
      assert rs[j].now <= rs[c].now;
    }
    if Chain(rs, p, c) && Since(rs[n].now, rs[c].now) < CALM_GAP {
      assert rs[n].now < rs[c].now + CALM_GAP;
      assert Near(rs, p, n);
      forall k: nat | p < k <= n && rs[k].congested
        ensures Near(rs, p, k)
      {
        if k < n { assert rs[..n][k].congested; }
      }
    }
  }

  /** With a gap, or with no congestion before, the only chain up to the new report is itself. */
  lemma {:induction false} ChainAlone(rs: seq<Report>, p: nat)
    requires Ordered(rs) && |rs| > 0 && rs[|rs| - 1].congested
    requires LastCongested(rs[..|rs| - 1]).None?
    ensures Chain(rs, p, |rs| - 1) <==> p == |rs| - 1
  {
    var before := rs[..|rs| - 1];
    assert forall k :: 0 <= k < |before| ==> before[k] == rs[k];
    assert forall k :: 0 <= k < |before| ==> !rs[k].congested;
    assert Chain(rs, |rs| - 1, |rs| - 1);
  }

  /** The run began where the longest chain up to the last congested report does. */
  lemma {:induction false} RunStartIsEarliest(rs: seq<Report>)
    requires Ordered(rs) && LastCongested(rs).Some?
    ensures RunStart(rs).Some? && Chain(rs, RunStart(rs).value, LastCongested(rs).value)
    ensures forall p: nat :: Chain(rs, p, LastCongested(rs).value) ==> RunStart(rs).value <= p
  {
    var n := |rs| - 1;
    var before := rs[..n];
    var b := LastCongested(before);
    RunStartExists(rs);
    if b.Some? { RunStartIsEarliest(before); }
    if !rs[n].congested {
      EarliestSame(rs);
    } else if b.Some? {
      EarliestAfter(rs, b.value);
    } else {
      forall p: nat
        ensures Chain(rs, p, n) <==> p == n
      {
        ChainAlone(rs, p);
      }
    }
  }

  ghost predicate Earliest(rs: seq<Report>, s: nat, c: nat) {
    Chain(rs, s, c) && forall p: nat :: Chain(rs, p, c) ==> s <= p
  }

  lemma {:induction false} EarliestPrefix(rs: seq<Report>, n: nat, s: nat, c: nat)
    requires c < n <= |rs|
    ensures Earliest(rs[..n], s, c) <==> Earliest(rs, s, c)
  {
    forall p: nat
      ensures Chain(rs[..n], p, c) <==> Chain(rs, p, c)
    {
      ChainPrefix(rs, n, p, c);
    }
  }

  lemma {:induction false} EarliestSame(rs: seq<Report>)
    requires rs != [] && !rs[|rs| - 1].congested && LastCongested(rs).Some? && RunStart(rs).Some?
    requires Earliest(rs[..|rs| - 1], RunStart(rs).value, LastCongested(rs).value)
    ensures Earliest(rs, RunStart(rs).value, LastCongested(rs).value)
  {
    EarliestPrefix(rs, |rs| - 1, RunStart(rs).value, LastCongested(rs).value);
  }

  lemma {:induction false} EarliestAfter(rs: seq<Report>, c: nat)
    requires Ordered(rs) && rs != [] && rs[|rs| - 1].congested
    requires LastCongested(rs[..|rs| - 1]) == Some(c) && RunStart(rs[..|rs| - 1]).Some?
    requires Earliest(rs[..|rs| - 1], RunStart(rs[..|rs| - 1]).value, c)
    ensures RunStart(rs).Some? && Earliest(rs, RunStart(rs).value, |rs| - 1)
  {
    var n := |rs| - 1;
    var s := RunStart(rs[..n]).value;
    EarliestPrefix(rs, n, s, c);
    assert rs[..n][c] == rs[c];
    assert Chain(rs, n, n);
    forall p: nat
      ensures Chain(rs, p, n) <==> p == n || (p < n && Chain(rs, p, c) && Since(rs[n].now, rs[c].now) < CALM_GAP)
    {
      if p < n { ChainExtends(rs, c, p); }
    }
  }

  /** The link is judged unstable at a report exactly when a long enough chain of congestion ends there. */
  lemma {:induction false} UnstableIff(s: Session, rs: seq<Report>)
    requires Sharply(s, rs) && rs != []
    ensures var r := rs[|rs| - 1];
            OnReport(Run(s, Started(0), rs[..|rs| - 1]).link, r.congested, r.now).1 <==> Unstable(rs, |rs| - 1)
  {
    var n := |rs| - 1;
    LinkRemembers(s, rs);
    if rs[n].congested {
      RunStartIsEarliest(rs);
      var p := RunStart(rs).value;
      assert Earliest(rs, p, n);
      assert Unstable(rs, n) <==> rs[n].now >= rs[p].now + DOWN_AFTER;
      ReportStep(s, rs);
    }
  }

  /** An unstable report, less than `d` before `now`. */
  ghost predicate UnstableWithin(rs: seq<Report>, now: nat, d: nat) {
    exists u: nat :: Unstable(rs, u) && now < rs[u].now + d
  }

  /** A congested report, less than `d` before `now`. */
  ghost predicate CongestedWithin(rs: seq<Report>, now: nat, d: nat) {
    exists c: nat :: c < |rs| && rs[c].congested && now < rs[c].now + d
  }

  predicate Past(rs: seq<Report>, now: nat) {
    forall k :: 0 <= k < |rs| ==> rs[k].now <= now
  }

  lemma {:induction false} LastUnstableAfter(s: Session, rs: seq<Report>)
    requires Sharply(s, rs) && rs != []
    ensures Run(s, Started(0), rs).link.lastUnstable
            == if Unstable(rs, |rs| - 1) then Some(rs[|rs| - 1].now)
               else Run(s, Started(0), rs[..|rs| - 1]).link.lastUnstable
  {
    UnstableIff(s, rs);
    ReportStep(s, rs);
  }

  lemma {:induction false} RemembersUnstable(s: Session, rs: seq<Report>, now: nat, d: nat)
    requires Sharply(s, rs) && Past(rs, now)
    ensures Within(Run(s, Started(0), rs).link.lastUnstable, now, d) <==> UnstableWithin(rs, now, d)
  {
    if rs == [] {
      assert forall u: nat :: !Unstable(rs, u);
    } else {
      var n := |rs| - 1;
      RemembersUnstable(s, rs[..n], now, d);
      LastUnstableAfter(s, rs);
      NewestUnstable(rs, now, d);
    }
  }

  lemma {:induction false} NewestComes(rs: seq<Report>, now: nat, d: nat)
    requires rs != [] && UnstableWithin(rs, now, d) && !Unstable(rs, |rs| - 1)
    ensures UnstableWithin(rs[..|rs| - 1], now, d)
  {
    var n := |rs| - 1;
    var u: nat :| Unstable(rs, u) && now < rs[u].now + d;
    UnstablePrefix(rs, n, u);
    assert Unstable(rs[..n], u) && now < rs[..n][u].now + d;
  }

  lemma {:induction false} NoneIsLater(rs: seq<Report>, now: nat, d: nat)
    requires Ordered(rs) && rs != [] && UnstableWithin(rs, now, d)
    ensures now < rs[|rs| - 1].now + d
  {
    var u: nat :| Unstable(rs, u) && now < rs[u].now + d;
    assert rs[u].now <= rs[|rs| - 1].now;
  }

  lemma {:induction false} OlderStays(rs: seq<Report>, now: nat, d: nat)
    requires rs != [] && UnstableWithin(rs[..|rs| - 1], now, d)
    ensures UnstableWithin(rs, now, d)
  {
    var n := |rs| - 1;
    var u: nat :| Unstable(rs[..n], u) && now < rs[..n][u].now + d;
    UnstablePrefix(rs, n, u);
    assert Unstable(rs, u) && now < rs[u].now + d;
  }

  lemma {:induction false} NewestUnstable(rs: seq<Report>, now: nat, d: nat)
    requires Ordered(rs) && rs != []
    ensures UnstableWithin(rs, now, d)
            <==> if Unstable(rs, |rs| - 1) then now < rs[|rs| - 1].now + d
                 else UnstableWithin(rs[..|rs| - 1], now, d)
  {
    if UnstableWithin(rs, now, d) { NoneIsLater(rs, now, d); }
    if UnstableWithin(rs, now, d) && !Unstable(rs, |rs| - 1) { NewestComes(rs, now, d); }
    if UnstableWithin(rs[..|rs| - 1], now, d) { OlderStays(rs, now, d); }
  }

  lemma {:induction false} RemembersCongested(s: Session, rs: seq<Report>, now: nat)
    requires Sharply(s, rs) && Past(rs, now)
    ensures Settling(Run(s, Started(0), rs).link, now) <==> CongestedWithin(rs, now, CALM_GAP)
  {
    LinkRemembers(s, rs);
    var c := LastCongested(rs);
    if CongestedWithin(rs, now, CALM_GAP) {
      var k: nat :| k < |rs| && rs[k].congested && now < rs[k].now + CALM_GAP;
      assert rs[k].now <= rs[c.value].now;
    }
  }

  // ---- the rung ----

  /** Less than `MIN_CHANGE_GAP` after the last size change. */
  predicate TooSoon(log: seq<Change>, now: nat) {
    log != [] && now < log[|log| - 1].at + MIN_CHANGE_GAP
  }

  function CurrentOf(log: seq<Change>): nat {
    if log == [] then 0 else log[|log| - 1].to
  }

  /** What the last report of `rs` does to the size, said of the reports and the changes before it. */
  ghost function Verdict(s: Session, rs: seq<Report>, log: seq<Change>): Option<nat>
    requires SessionOk(s) && rs != [] && CurrentOf(log) < |s.ladder|
  {
    var r := rs[|rs| - 1];
    var at := CurrentOf(log);
    if TooSoon(log, r.now) then None
    else if Unstable(rs, |rs| - 1) then
      if at == |s.ladder| - 1 then None else Some(RungBelow(s, at, r.kbps))
    else if at > 0 && !CongestedWithin(rs, r.now, CALM_GAP) && !UnstableWithin(rs, r.now, RetryAfter(log)) then Some(0)
    else None
  }

  // ---- how long it waits ----

  /** A switch away from full size, less than `RETRY_HOLD` after the return before it. */
  predicate Failed(log: seq<Change>, e: nat)
    requires e < |log|
  {
    log[e].from == 0 && e > 0 && log[e - 1].to == 0 && log[e].at < log[e - 1].at + RETRY_HOLD
  }

  /** How many of the latest switches away from full size failed, in a row. */
  function FailedInARow(log: seq<Change>): nat {
    if log == [] then 0
    else
      var e := |log| - 1;
      if log[e].from != 0 then FailedInARow(log[..e])
      else if Failed(log, e) then FailedInARow(log[..e]) + 1
      else 0
  }

  function Doubled(k: nat): nat {
    if k == 0 then 1 else 2 * Doubled(k - 1)
  }

  /** Eight seconds, doubled for every failed return in a row, and never more than 64. */
  function RetryAfter(log: seq<Change>): nat {
    Min(UP_AFTER * Doubled(FailedInARow(log)), MAX_UP_AFTER)
  }

  lemma {:induction false} CapDoubles(k: nat)
    ensures Min(UP_AFTER * Doubled(k + 1), MAX_UP_AFTER)
            == Min(Min(UP_AFTER * Doubled(k), MAX_UP_AFTER) * 2, MAX_UP_AFTER)
  {
  }

  /** The last return to full size in a log that is at full size, or was never away from it. */
  function LastReturn(log: seq<Change>): Option<nat> {
    if log == [] then None
    else if log[|log| - 1].to == 0 then Some(log[|log| - 1].at)
    else LastReturn(log[..|log| - 1])
  }

  lemma {:induction false} ReturnIsNewest(log: seq<Change>)
    requires log == [] || log[|log| - 1].to == 0
    ensures LastReturn(log) == if log == [] then None else Some(log[|log| - 1].at)
  {
  }

  lemma {:induction false} LeaveStep(log: seq<Change>, c: Change)
    requires c.from == 0 && (log == [] || (log[|log| - 1].to == 0 && log[|log| - 1].at <= c.at))
    ensures RetryAfter(log + [c])
            == if Within(LastReturn(log), c.at, RETRY_HOLD) then Min(RetryAfter(log) * 2, MAX_UP_AFTER) else UP_AFTER
  {
    var next := log + [c];
    assert next[..|log|] == log;
    ReturnIsNewest(log);
    CapDoubles(FailedInARow(log));
    if Failed(next, |log|) {
      assert FailedInARow(next) == FailedInARow(log) + 1;
    } else {
      assert FailedInARow(next) == 0;
    }
  }

  lemma {:induction false} OtherStep(log: seq<Change>, c: Change)
    requires c.from != 0
    ensures RetryAfter(log + [c]) == RetryAfter(log)
  {
    assert (log + [c])[..|log|] == log;
  }

  /** What one report does to the return stamp and to the wait. */
  lemma {:induction false} WaitStep(s: Session, g: Governor, r: Report)
    requires GovernorOk(s, g) && s.policy == Sharp
    ensures var (h, next) := Chosen(s, g, r);
            && (next.None? ==> h.link.lastReturn == g.link.lastReturn && h.link.retryAfter == g.link.retryAfter)
            && (next == Some(0) ==> h.link.lastReturn == Some(r.now) && h.link.retryAfter == g.link.retryAfter)
            && (next.Some? && next.value > 0 ==> h.link.lastReturn == g.link.lastReturn)
            && (next.Some? && next.value > 0 && g.current > 0 ==> h.link.retryAfter == g.link.retryAfter)
            && (next.Some? && g.current == 0
                ==> h.link.retryAfter == if Within(g.link.lastReturn, r.now, RETRY_HOLD)
                                         then Min(g.link.retryAfter * 2, MAX_UP_AFTER) else UP_AFTER)
  {
  }

  /** The wait and the return stamp are the ones this record of switches calls for. */
  predicate Records(l: Link, log: seq<Change>) {
    l.retryAfter == RetryAfter(log) && l.lastReturn == LastReturn(log)
  }

  lemma {:induction false} ReturnStep(log: seq<Change>, c: Change)
    ensures LastReturn(log + [c]) == if c.to == 0 then Some(c.at) else LastReturn(log)
  {
    assert (log + [c])[..|log|] == log;
  }

  lemma {:induction false} RecordStep(s: Session, g: Governor, r: Report, log: seq<Change>)
    requires GovernorOk(s, g) && s.policy == Sharp && Records(g.link, log) && g.current == CurrentOf(log)
    requires log != [] ==> log[|log| - 1].at <= r.now
    ensures var (h, next) := Chosen(s, g, r);
            Records(h.link, if next.None? then log else log + [Change(r.now, g.current, next.value)])
  {
    WaitStep(s, g, r);
    var next := Chosen(s, g, r).1;
    if next.Some? {
      var c := Change(r.now, g.current, next.value);
      ReturnStep(log, c);
      if g.current == 0 {
        LeaveStep(log, c);
      } else {
        OtherStep(log, c);
      }
    }
  }

  lemma {:induction false} Unfolded(s: Session, rs: seq<Report>)
    requires SessionOk(s) && rs != []
    ensures var (n, g) := (|rs| - 1, Run(s, Started(0), rs[..|rs| - 1]));
            var (h, next) := Chosen(s, g, rs[n]);
            && Run(s, Started(0), rs).link == h.link
            && Changes(s, Started(0), rs) == (if next.None? then Changes(s, Started(0), rs[..n])
                                     else Changes(s, Started(0), rs[..n]) + [Change(rs[n].now, g.current, next.value)])
  {
  }

  lemma {:induction false} SharplyBefore(s: Session, rs: seq<Report>)
    requires Sharply(s, rs) && rs != []
    ensures Sharply(s, rs[..|rs| - 1])
    ensures var log := Changes(s, Started(0), rs[..|rs| - 1]);
            && Run(s, Started(0), rs[..|rs| - 1]).current == CurrentOf(log) < |s.ladder|
            && (log != [] ==> log[|log| - 1].at <= rs[|rs| - 1].now)
  {
    var log := Changes(s, Started(0), rs[..|rs| - 1]);
    ChangesChain(s, Started(0), rs[..|rs| - 1]);
    if log != [] { ChangesPast(s, Started(0), rs[..|rs| - 1], |log| - 1); }
  }

  /** The wait the governor keeps is the one its own record of switches calls for. */
  lemma {:induction false} WaitFollowsRecord(s: Session, rs: seq<Report>)
    requires Sharply(s, rs)
    ensures Records(Run(s, Started(0), rs).link, Changes(s, Started(0), rs))
  {
    if rs == [] {
    } else {
      var n := |rs| - 1;
      SharplyBefore(s, rs);
      WaitFollowsRecord(s, rs[..n]);
      RecordStep(s, Run(s, Started(0), rs[..n]), rs[n], Changes(s, Started(0), rs[..n]));
      Unfolded(s, rs);
    }
  }

  lemma {:induction false} SpacedIff(s: Session, rs: seq<Report>)
    requires Sharply(s, rs) && rs != []
    ensures MayChange(Run(s, Started(0), rs[..|rs| - 1]), rs[|rs| - 1].now)
            <==> !TooSoon(Changes(s, Started(0), rs[..|rs| - 1]), rs[|rs| - 1].now)
  {
    var log := Changes(s, Started(0), rs[..|rs| - 1]);
    ChangesChain(s, Started(0), rs[..|rs| - 1]);
    if log != [] { ChangesPast(s, Started(0), rs[..|rs| - 1], |log| - 1); }
  }

  lemma {:induction false} SettledIff(s: Session, rs: seq<Report>)
    requires Sharply(s, rs) && rs != [] && !Unstable(rs, |rs| - 1)
    ensures var (n, log) := (|rs| - 1, Changes(s, Started(0), rs[..|rs| - 1]));
            Settled(OnReport(Run(s, Started(0), rs[..n]).link, rs[n].congested, rs[n].now).0, rs[n].now)
            <==> !CongestedWithin(rs, rs[n].now, CALM_GAP) && !UnstableWithin(rs, rs[n].now, RetryAfter(log))
  {
    var n := |rs| - 1;
    var now := rs[n].now;
    WaitFollowsRecord(s, rs[..n]);
    UnstableIff(s, rs);
    var wait := RetryAfter(Changes(s, Started(0), rs[..n]));
    RemembersUnstable(s, rs, now, wait);
    RemembersCongested(s, rs, now);
    LastUnstableAfter(s, rs);
    ReportStep(s, rs);
  }

  lemma {:induction false} ChosenIs(s: Session, g: Governor, r: Report)
    requires GovernorOk(s, g) && s.policy == Sharp
    ensures var (l, unstable) := OnReport(g.link, r.congested, r.now);
            Chosen(s, g, r).1
            == if !MayChange(g, r.now) then None
               else if unstable then
                 if g.current == |s.ladder| - 1 then None else Some(RungBelow(s, g.current, r.kbps))
               else if g.current > 0 && Settled(l, r.now) then Some(0)
               else None
  {
  }

  /**
   * The sharp governor does at every report exactly what its history calls for: it steps down when
   * the link is unstable, and goes straight back to full size once it has been calm for long enough.
   */
  lemma {:induction false} SharpIsItsHistory(s: Session, rs: seq<Report>)
    requires Sharply(s, rs) && rs != []
    ensures CurrentOf(Changes(s, Started(0), rs[..|rs| - 1])) < |s.ladder|
    ensures Chosen(s, Run(s, Started(0), rs[..|rs| - 1]), rs[|rs| - 1]).1
            == Verdict(s, rs, Changes(s, Started(0), rs[..|rs| - 1]))
  {
    SharplyBefore(s, rs);
    SpacedIff(s, rs);
    UnstableIff(s, rs);
    if !Unstable(rs, |rs| - 1) { SettledIff(s, rs); }
    ChosenIs(s, Run(s, Started(0), rs[..|rs| - 1]), rs[|rs| - 1]);
  }

  /** A return to full size comes no sooner than the wait after every unstable report. */
  lemma {:induction false} ReturnsWait(s: Session, rs: seq<Report>)
    requires Sharply(s, rs) && rs != []
    requires Chosen(s, Run(s, Started(0), rs[..|rs| - 1]), rs[|rs| - 1]).1 == Some(0)
    ensures var wait := RetryAfter(Changes(s, Started(0), rs[..|rs| - 1]));
            forall u: nat :: Unstable(rs, u) ==> rs[|rs| - 1].now >= rs[u].now + wait
  {
    SharpIsItsHistory(s, rs);
  }
}
