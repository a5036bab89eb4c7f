/**
 * `Questionnaire.build_question` of interval_training/lib.py: up to fifty calls
 * to the question builder, keeping only a question not among the last seven
 * asked.
 */
module Questionnaires {
  import opened Wrappers
  import opened Questions
  import opened Stats

  /** `deque(maxlen=7)`: how many recent questions are remembered. */
  const WindowSize: nat := 7

  /** `range(50, 0, -1)`: how many builder calls one question may take. (A function
      rather than a constant, so that the solver does not unfold fifty attempts.) */
  function MaxAttempts(): nat { 50 }

  /** What one `build_question` call of the builder does: return a question, or raise
      `ValueError` (an interval the validation refused). */
  datatype Draw<Q> = Built(question: Q) | Failed

  /** The last `WindowSize` questions of a history, oldest first. */
  function Recent<Q>(asked: seq<Q>): (w: seq<Q>)
    ensures |w| <= WindowSize
  {
    if |asked| <= WindowSize then asked else asked[|asked| - WindowSize..]
  }

  /** `deque.append` on a deque bounded to `WindowSize`: when it is full the oldest
      entry is dropped. */
  function Push<Q>(window: seq<Q>, q: Q): (w: seq<Q>)
    requires |window| <= WindowSize
    ensures |w| <= WindowSize
  {
    if |window| < WindowSize then window + [q] else window[1..] + [q]
  }

  /** The pushed window is the recent part of the window extended by the question, which
      ends it. */
  lemma PushIsRecent<Q>(window: seq<Q>, q: Q)
    requires |window| <= WindowSize
    ensures Push(window, q) == Recent(window + [q])
    ensures |Push(window, q)| > 0 && Push(window, q)[|Push(window, q)| - 1] == q
  {
  }

  /** The pushed window holds only entries of the old window and the new question. */
  lemma PushElements<Q>(window: seq<Q>, q: Q, x: Q)
    requires |window| <= WindowSize
    ensures x in Push(window, q) ==> x in window || x == q
  {
    if |window| == WindowSize && x in window[1..] {
      var k :| 0 <= k < |window[1..]| && window[1..][k] == x;
      assert window[k + 1] == x;
    }
  }

  /** Keeping the recent questions and appending one more keeps the recent questions of
      the longer history. */
  lemma PushRecent<Q>(asked: seq<Q>, q: Q)
    ensures Push(Recent(asked), q) == Recent(asked + [q])
  {
    PushIsRecent(Recent(asked), q);
    if |asked| > WindowSize {
      assert Recent(asked) + [q] == (asked + [q])[|asked| - WindowSize..];
      assert (asked + [q])[|asked| - WindowSize..][1..] == (asked + [q])[|asked| + 1 - WindowSize..];
    }
  }

  /** A draw that does not give a new question: the builder raised, or the question is
      one of the recent ones. */
  predicate Rejected<Q(==)>(d: Draw<Q>, window: seq<Q>)
  {
    d.Failed? || d.question in window
  }

  /** What a run of builder calls ends with: the question returned (None when
      `ValueError` "too many attempt" is raised), the window and the number of builder
      calls made so far. */
  datatype Outcome<Q> = Outcome(question: Option<Q>, window: seq<Q>, calls: nat)

  /** The attempts `build_question` makes with `remaining` tries left, the builder
      having been called `calls` times before. What the outcome means is stated by
      `AttemptsOutcome`. */
  function Attempts<Q(==)>(builder: nat -> Draw<Q>, window: seq<Q>, calls: nat, remaining: nat): (o: Outcome<Q>)
    requires |window| <= WindowSize
    ensures calls <= o.calls <= calls + remaining
    ensures |o.window| <= WindowSize
    ensures o.question.None? ==> o.window == window && o.calls == calls + remaining
    decreases remaining
  {
    if remaining == 0 then Outcome(None, window, calls)
    else
      var d := builder(calls);
      if !Rejected(d, window) then Outcome(Some(d.question), Push(window, d.question), calls + 1)
      else Attempts(builder, window, calls + 1, remaining - 1)
  }

  /** A question comes from the last draw made, which is the first draw not rejected:
      it is not a recent question and it is pushed onto the window. Without a
      question, every one of the `remaining` draws was rejected. */
  lemma {:induction false} AttemptsOutcome<Q>(builder: nat -> Draw<Q>, window: seq<Q>, calls: nat, remaining: nat)
    requires |window| <= WindowSize
    ensures var o := Attempts(builder, window, calls, remaining);
            && (o.question.Some? ==>
                  && o.calls > calls
                  && builder(o.calls - 1) == Built(o.question.value)
                  && o.question.value !in window
                  && o.window == Push(window, o.question.value)
                  && forall n :: calls <= n < o.calls - 1 ==> Rejected(builder(n), window))
            && (o.question.None? ==>
                  forall n :: calls <= n < o.calls ==> Rejected(builder(n), window))
    decreases remaining
  {
    if remaining > 0 && Rejected(builder(calls), window) {
      AttemptsOutcome(builder, window, calls + 1, remaining - 1);
    }
  }

  /** No question repeats one of the `WindowSize` questions asked just before it. */
  ghost predicate NoRecentRepeat<Q>(asked: seq<Q>)
  {
    forall i, j :: 0 <= i < j < |asked| && j - i <= WindowSize ==> asked[i] != asked[j]
  }

  /** A question that is not among the recent ones keeps a history free of recent
      repeats. */
  lemma FreshKeepsNoRecentRepeat<Q>(asked: seq<Q>, q: Q)
    requires NoRecentRepeat(asked)
    requires q !in Recent(asked)
    ensures NoRecentRepeat(asked + [q])
  {
    var s := asked + [q];
    forall i, j | 0 <= i < j < |s| && j - i <= WindowSize
      ensures s[i] != s[j]
    {
      if j == |asked| {
        var w := Recent(asked);
        var start := |asked| - |w|;
        assert w == asked[start..];
        assert w[i - start] == asked[i];
      }
    }
  }

  /** Pushing a question that is not a recent one keeps the window the recent part of
      a history free of recent repeats. */
  lemma FreshKeepsWindow<Q>(asked: seq<Q>, q: Q)
    requires NoRecentRepeat(asked)
    requires q !in Recent(asked)
    ensures Push(Recent(asked), q) == Recent(asked + [q])
    ensures NoRecentRepeat(asked + [q])
  {
    PushRecent(asked, q);
    FreshKeepsNoRecentRepeat(asked, q);
  }

  /** A `Questionnaire`: the builder (as the stream of what its successive calls
      return), the window of recent questions and the answer tally. `asked` is the
      history of the questions returned, kept for the statement of the window. */
  class Questionnaire<Q(==)> {
    const builder: nat -> Draw<Q>
    var calls: nat
    var window: seq<Q>
    ghost var asked: seq<Q>
    const stats: QuestionStats

    /** The window holds the last seven questions asked, and no question repeated one
        of the seven before it. */
    ghost predicate Valid()
      reads this
    {
      && window == Recent(asked)
      && NoRecentRepeat(asked)
    }

    /** `Questionnaire(question_builder)`: an empty window and an empty tally. */
    constructor(builder: nat -> Draw<Q>)
      ensures Valid()
      ensures this.builder == builder && calls == 0 && window == [] && asked == []
      ensures fresh(stats) && stats.correct == [] && stats.wrong == []
    {
      this.builder := builder;
      calls := 0;
      window := [];
      asked := [];
      stats := new QuestionStats();
    }

    /** `build_question`: the first of at most fifty draws that is neither a failure nor
        a recent question is returned and appended to the window; after fifty failures
        the window is unchanged and the result is None. */
    method BuildQuestion() returns (q: Option<Q>)
      requires Valid()
      modifies this
      ensures Valid()
      ensures Outcome(q, window, calls) == Attempts(builder, old(window), old(calls), MaxAttempts())
      ensures asked == if q.Some? then old(asked) + [q.value] else old(asked)
    {
      ghost var target := Attempts(builder, window, calls, MaxAttempts());
      var remaining: nat := MaxAttempts();
      while remaining > 0
        invariant window == old(window) && asked == old(asked)
        invariant Attempts(builder, window, calls, remaining) == target
      {
        var d := builder(calls);
        if !Rejected(d, window) {
          FreshKeepsWindow(asked, d.question);
          calls := calls + 1;
          window := Push(window, d.question);
          asked := asked + [d.question];
          return Some(d.question);
        }
        calls := calls + 1;
        remaining := remaining - 1;
      }
      return None;
    }

    /** `register_answer`: the answer goes to the tally. */
    method RegisterAnswer(a: Answer)
      modifies stats
      ensures unchanged(this)
      ensures IsCorrect(a) ==> stats.correct == old(stats.correct) + [a] && stats.wrong == old(stats.wrong)
      ensures !IsCorrect(a) ==> stats.wrong == old(stats.wrong) + [a] && stats.correct == old(stats.correct)
    {
      stats.Register(a);
    }
  }
}
