/** The compare-exchange loop that keeps encoder timestamps moving forward, under any interleaving. */
module MonotonicPts {
  import opened Prelude

  const I64_MIN := -0x8000_0000_0000_0000
  const I64_MAX := 0x7FFF_FFFF_FFFF_FFFF
  const STEP_NS := 1000

  type i64 = x: int | I64_MIN <= x <= I64_MAX

  function SaturatingAdd(a: i64, b: i64): i64 {
    Max(I64_MIN, Min(I64_MAX, a + b))
  }

  /** What a thread that asked for `pts` writes over `last`. */
  function Raised(pts: i64, last: i64): i64 {
    Max(pts, SaturatingAdd(last, STEP_NS))
  }

  datatype Thread = Idle | Trying(pts: i64, last: i64)

  datatype Answer = Answer(thread: nat, pts: i64, value: i64)

  /** `written` is the cell's modification order, its current value last. */
  datatype System = System(written: seq<i64>, threads: map<nat, Thread>, answers: seq<Answer>)

  /**
   * One step of one thread. A relaxed load, and a failed exchange, may see any value the cell has
   * held; an exchange may fail for no reason, and succeeds only on the value the cell holds now.
   */
  datatype Act =
    | Load(thread: nat, pts: i64, seen: nat)
    | Exchange(thread: nat)
    | Fail(thread: nat, seen: nat)

  function Of(s: System, t: nat): Thread {
    if t in s.threads then s.threads[t] else Idle
  }

  function Step(s: System, a: Act): Option<System>
    requires s.written != []
  {
    match a
    case Load(t, pts, seen) =>
      if Of(s, t) != Idle || seen >= |s.written| then None
      else Some(s.(threads := s.threads[t := Trying(pts, s.written[seen])]))
    case Exchange(t) =>
      var th := Of(s, t);
      if th == Idle || th.last != s.written[|s.written| - 1] then None
      else
        var next := Raised(th.pts, th.last);
        Some(System(s.written + [next], s.threads[t := Idle], s.answers + [Answer(t, th.pts, next)]))
    case Fail(t, seen) =>
      var th := Of(s, t);
      if th == Idle || seen >= |s.written| then None
      else Some(s.(threads := s.threads[t := Trying(th.pts, s.written[seen])]))
  }

  /** The system after `acts`, if every one of them was possible. */
  function Run(acts: seq<Act>): (r: Option<System>)
    ensures r.Some? ==> |r.value.written| == |r.value.answers| + 1
  {
    if acts == [] then Some(System([I64_MIN], map[], []))
    else
      var before := Run(acts[..|acts| - 1]);
      if before.None? then None else Step(before.value, acts[|acts| - 1])
  }

  /** The values one thread alone would have produced for `answers`' requests, in that order. */
  function Sequential(answers: seq<Answer>): seq<i64> {
    if answers == [] then [I64_MIN]
    else
      var before := Sequential(answers[..|answers| - 1]);
      before + [Raised(answers[|answers| - 1].pts, Last(answers[..|answers| - 1]))]
  }

  function Last(answers: seq<Answer>): i64 {
    if answers == [] then I64_MIN else answers[|answers| - 1].value
  }

  /** The cell went through the values one thread alone would have written, and each is one answer's. */
  predicate Recorded(s: System) {
    && s.written == Sequential(s.answers) && |s.written| == |s.answers| + 1 && s.written[0] == I64_MIN
    && forall k :: 0 <= k < |s.answers| ==> s.written[k + 1] == s.answers[k].value
  }

  lemma {:induction false} SequentialGrows(answers: seq<Answer>, a: Answer)
    ensures Sequential(answers + [a]) == Sequential(answers) + [Raised(a.pts, Last(answers))]
  {
    assert (answers + [a])[..|answers|] == answers;
  }

  lemma {:induction false} ExchangeRecorded(s: System, a: Answer, threads: map<nat, Thread>)
    requires Recorded(s) && a.value == Raised(a.pts, s.written[|s.written| - 1])
    ensures Recorded(System(s.written + [a.value], threads, s.answers + [a]))
  {
    SequentialGrows(s.answers, a);
    assert s.written[|s.written| - 1] == Last(s.answers);
  }

  lemma {:induction false} StepRecorded(s: System, a: Act)
    requires Recorded(s) && Step(s, a).Some?
    ensures Recorded(Step(s, a).value)
  {
    if a.Exchange? {
      var th := Of(s, a.thread);
      ExchangeRecorded(s, Answer(a.thread, th.pts, Raised(th.pts, th.last)), Step(s, a).value.threads);
    }
  }

  /** Every interleaving is some one-at-a-time order of the calls: that of their exchanges. */
  lemma {:induction false} Linearizes(acts: seq<Act>)
    requires Run(acts).Some?
    ensures Recorded(Run(acts).value)
  {
    if acts != [] {
      Linearizes(acts[..|acts| - 1]);
      StepRecorded(Run(acts[..|acts| - 1]).value, acts[|acts| - 1]);
    }
  }

  /** Answer `k` was computed from the answer before it. */
  predicate Follows(answers: seq<Answer>, k: nat)
    requires k < |answers|
  {
    answers[k].value == Raised(answers[k].pts, Last(answers[..k]))
  }

  /** One thread alone answers so. */
  lemma {:induction false} SequentialFollows(answers: seq<Answer>, k: nat)
    requires k < |answers|
    ensures |Sequential(answers)| == |answers| + 1
    ensures Sequential(answers)[k + 1] == Raised(answers[k].pts, Last(answers[..k]))
  {
    var n := |answers| - 1;
    SequentialLength(answers);
    if k < n {
      SequentialFollows(answers[..n], k);
      assert answers[..n][..k] == answers[..k];
    }
  }

  lemma {:induction false} SequentialLength(answers: seq<Answer>)
    ensures |Sequential(answers)| == |answers| + 1
  {
    if answers != [] { SequentialLength(answers[..|answers| - 1]); }
  }

  lemma {:induction false} EachFollows(acts: seq<Act>)
    requires Run(acts).Some?
    ensures forall k: nat :: k < |Run(acts).value.answers| ==> Follows(Run(acts).value.answers, k)
  {
    Linearizes(acts);
    var s := Run(acts).value;
    forall k: nat | k < |s.answers|
      ensures Follows(s.answers, k)
    {
      SequentialFollows(s.answers, k);
      assert s.written[k + 1] == s.answers[k].value;
    }
  }

  /**
   * In order of exchanges, answers are at least what was asked for and grow by 1000 ns each, up to
   * the largest timestamp there is.
   */
  lemma {:induction false} AnswersGrow(acts: seq<Act>, i: nat, j: nat)
    requires Run(acts).Some? && i <= j < |Run(acts).value.answers|
    ensures var answers := Run(acts).value.answers;
            && answers[j].value >= answers[j].pts
            && answers[j].value >= Min(answers[i].value + STEP_NS * (j - i), I64_MAX)
  {
    EachFollows(acts);
    var answers := Run(acts).value.answers;
    assert Follows(answers, j);
    if i < j {
      AnswersGrow(acts, i, j - 1);
      assert Last(answers[..j]) == answers[j - 1].value;
    }
  }

  /**
   * An answer is the time asked for whenever that is at least 1000 ns after the answer before it; otherwise
   * it is exactly that much after, or the largest timestamp there is.
   */
  lemma {:induction false} AnswerIsAsked(acts: seq<Act>, k: nat)
    requires Run(acts).Some? && k < |Run(acts).value.answers|
    ensures var (answers, a) := (Run(acts).value.answers, Run(acts).value.answers[k]);
            && (k == 0 ==> a.value == if a.pts >= I64_MIN + 1000 then a.pts else I64_MIN + 1000)
            && (k > 0 ==> a.value == if a.pts >= answers[k - 1].value + 1000 then a.pts
                                     else Min(answers[k - 1].value + 1000, 0x7FFF_FFFF_FFFF_FFFF))
  {
    EachFollows(acts);
    var answers := Run(acts).value.answers;
    assert Follows(answers, k);
    if k > 0 { assert Last(answers[..k]) == answers[k - 1].value; }
  }

  /** Two answers coincide exactly when the timestamp has run out. */
  lemma {:induction false} SameOnlyWhenSaturated(acts: seq<Act>, i: nat, j: nat)
    requires Run(acts).Some? && i < j < |Run(acts).value.answers|
    ensures var answers := Run(acts).value.answers;
            answers[i].value == answers[j].value <==> answers[i].value == I64_MAX
  {
    AnswersGrow(acts, i, j);
  }

  /** Below saturation a value never comes back, so a thread exchanges only what nobody has replaced. */
  lemma {:induction false} ExchangeIsOnTheNewest(acts: seq<Act>, seen: nat)
    requires Run(acts).Some?
    requires var w := Run(acts).value.written; seen < |w| && w[seen] == w[|w| - 1] < I64_MAX
    ensures seen == |Run(acts).value.written| - 1
  {
    var s := Run(acts).value;
    Linearizes(acts);
    var n := |s.answers|;
    if n > 0 {
      assert s.written[n - 1 + 1] == s.answers[n - 1].value;
      EachFollows(acts);
      assert Follows(s.answers, 0);
      AnswersGrow(acts, 0, n - 1);
      if 0 < seen < n {
        assert s.written[seen - 1 + 1] == s.answers[seen - 1].value;
        AnswersGrow(acts, seen - 1, n - 1);
      }
    }
  }
}
