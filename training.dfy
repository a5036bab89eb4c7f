/**
 * `TrainingApp` of interval_training/lib.py and its three subclasses: a quiz of
 * `question_size` questions whose report is returned however the quiz ends.
 * The builder's random draws and the answers typed at the prompt are given as
 * streams indexed by call number.
 */
module Training {
  import opened Wrappers
  import opened Scales
  import Intervals
  import Triads
  import Chords3
  import opened Questions
  import opened Stats
  import opened Questionnaires

  /** `IntervalTrainingApp(size, tune, exclude_alterations)`, `TriadTrainingApp(size)`
      or `Chord3TrainingApp(size)`. */
  datatype AppKind =
    | IntervalTraining(tune: string, excludeAlterations: bool)
    | TriadTraining
    | Chord3Training

  datatype TrainingApp = TrainingApp(kind: AppKind, questionSize: nat)

  /** `TrainingApp.__init__`: a quiz needs at least two questions. */
  function NewTrainingApp(kind: AppKind, questionSize: int): (r: Result<TrainingApp, string>)
    ensures r.Ok? <==> questionSize > 1
    ensures r.Ok? ==> r.value.kind == kind && r.value.questionSize == questionSize
    ensures r.Err? ==> r.error == "At least 2 questions should be used"
  {
    if questionSize > 1 then Ok(TrainingApp(kind, questionSize))
    else Err("At least 2 questions should be used")
  }

  /** A position in the key order of the table. */
  type KeyPick = k: nat | k < 15

  /** The random draws one builder call consumes: a key for the chord apps, a degree
      and an alteration for the interval app. */
  datatype Pick = Pick(key: KeyPick, degree: Intervals.DegreePick, alteration: Intervals.AlterationPick)

  /** `random_scale()`: the drawn key of the table. */
  function RandomScale(key: KeyPick): (k: string)
    ensures k in MajorScales
  {
    KeysAreTheTable();
    Keys[key]
  }

  /** One `build_question` call of the app's builder for given draws: an interval of
      the tune (which raises when the tune or the spelling is invalid), or the triad or
      chord of a random key (which never raises). */
  function BuildDraw(kind: AppKind, pick: Pick): (d: Draw<Question>)
    ensures !kind.IntervalTraining? ==> d.Built?
    ensures kind.TriadTraining? ==> d.question.TriadQuestion? && Triads.Root(d.question.triad) in MajorScales
    ensures kind.Chord3Training? ==> d.question.Chord3Question? && Chords3.Root(d.question.chord) in MajorScales
    ensures kind.IntervalTraining? && kind.tune !in MajorScales ==> d.Failed?
    ensures kind.IntervalTraining? && kind.excludeAlterations && kind.tune in MajorScales ==>
              d.Built? && d.question.IntervalQuestion? &&
              d.question.interval.root == kind.tune && d.question.interval.alteration == ""
    ensures kind.IntervalTraining? && d.Built? ==>
              d.question.IntervalQuestion? && d.question.interval.root == kind.tune
  {
    match kind
    case IntervalTraining(tune, exclude) =>
      (match Intervals.Random(tune, exclude, pick.degree, pick.alteration)
       case Ok(i) => Built(IntervalQuestion(i))
       case Err(_) => Failed)
    case TriadTraining => Built(TriadQuestion(Triads.FromRoot(RandomScale(pick.key)).value))
    case Chord3Training => Built(Chord3Question(Chords3.FromRoot(RandomScale(pick.key)).value))
  }

  /** `_question_builder()`: the stream of what successive builder calls return. */
  function Builder(kind: AppKind, picks: nat -> Pick): nat -> Draw<Question>
  {
    (n: nat) => BuildDraw(kind, picks(n))
  }

  // ---------------------------------------------------------------------------
  // The run, as a function of the streams. Which questions are asked does not depend
  // on the answers, so the rounds are stated on the questionnaire alone and the tally
  // is the split of the answers to the questions asked.

  /** What the rounds have changed so far: the window, the builder calls and the
      questions asked. */
  datatype Progress<Q> = Progress(window: seq<Q>, calls: nat, asked: seq<Q>)

  /** A fresh questionnaire. */
  function Start<Q>(): Progress<Q> { Progress([], 0, []) }

  /** `remaining` more rounds of `run`'s loop: each builds a question, which is then
      asked. A round whose fifty attempts all fail raises, and the `finally` ends the
      run there. */
  function Rounds<Q(==)>(builder: nat -> Draw<Q>, p: Progress<Q>, remaining: nat): (t: Progress<Q>)
    requires |p.window| <= WindowSize
    ensures |t.window| <= WindowSize
    decreases remaining
  {
    if remaining == 0 then p
    else
      var o := Attempts(builder, p.window, p.calls, MaxAttempts());
      match o.question
      case None => Progress(o.window, o.calls, p.asked)
      case Some(q) => Rounds(builder, Progress(o.window, o.calls, p.asked + [q]), remaining - 1)
  }

  /** One round, unfolded. */
  lemma RoundsStep<Q>(builder: nat -> Draw<Q>, p: Progress<Q>, remaining: nat, o: Outcome<Q>)
    requires |p.window| <= WindowSize && remaining > 0
    requires o == Attempts(builder, p.window, p.calls, MaxAttempts())
    ensures o.question.None? ==> Rounds(builder, p, remaining) == Progress(o.window, o.calls, p.asked)
    ensures o.question.Some? ==>
              Rounds(builder, p, remaining) ==
              Rounds(builder, Progress(o.window, o.calls, p.asked + [o.question.value]), remaining - 1)
  {
  }

  /** The rounds only add questions, at most one per round. */
  lemma {:induction false} RoundsExtend<Q>(builder: nat -> Draw<Q>, p: Progress<Q>, remaining: nat)
    requires |p.window| <= WindowSize
    ensures var t := Rounds(builder, p, remaining);
            && |p.asked| <= |t.asked| <= |p.asked| + remaining
            && t.asked[..|p.asked|] == p.asked
    decreases remaining
  {
    if remaining > 0 {
      var o := Attempts(builder, p.window, p.calls, MaxAttempts());
      if o.question.Some? {
        var next := Progress(o.window, o.calls, p.asked + [o.question.value]);
        RoundsExtend(builder, next, remaining - 1);
        var t := Rounds(builder, next, remaining - 1);
        assert t.asked[..|p.asked|] == t.asked[..|next.asked|][..|p.asked|];
      }
    }
  }

  /** A run asks a question in every round unless one round found nothing new in fifty
      builder calls; then it ends there, right after those fifty rejected draws. */
  lemma {:induction false} RoundsEnd<Q>(builder: nat -> Draw<Q>, p: Progress<Q>, remaining: nat)
    requires |p.window| <= WindowSize
    ensures var t := Rounds(builder, p, remaining);
            || |t.asked| == |p.asked| + remaining
            || (&& t.calls >= MaxAttempts()
                && forall n: nat :: t.calls - MaxAttempts() <= n < t.calls ==> Rejected(builder(n), t.window))
    decreases remaining
  {
    if remaining > 0 {
      var o := Attempts(builder, p.window, p.calls, MaxAttempts());
      if o.question.Some? {
        RoundsEnd(builder, Progress(o.window, o.calls, p.asked + [o.question.value]), remaining - 1);
      } else {
        AttemptsOutcome(builder, p.window, p.calls, MaxAttempts());
      }
    }
  }

  /** A builder that always raises ends the run in its first round, with nothing asked. */
  lemma RoundsNothingBuilt<Q>(builder: nat -> Draw<Q>, p: Progress<Q>, remaining: nat)
    requires |p.window| <= WindowSize
    requires forall n: nat :: builder(n).Failed?
    ensures Rounds(builder, p, remaining).asked == p.asked
  {
    if remaining > 0 {
      AttemptsOutcome(builder, p.window, p.calls, MaxAttempts());
    }
  }

  /** The `count` builder calls from call `calls` on each build a question, none of
      them is in the window, and no two of them are equal: none will be rejected. */
  ghost predicate FreshFor<Q>(builder: nat -> Draw<Q>, calls: nat, count: nat, window: seq<Q>)
  {
    && AllBuilt(builder, calls, count)
    && (forall n: nat :: calls <= n < calls + count ==> builder(n).Built? && builder(n).question !in window)
    && (forall m: nat, n: nat :: calls <= m < n < calls + count ==> Differ(builder, m, n))
  }

  /** Builder calls `m` and `n` return different results. */
  ghost predicate Differ<Q>(builder: nat -> Draw<Q>, m: nat, n: nat)
  {
    builder(m) != builder(n)
  }

  /** The `count` builder calls from call `calls` on each build a question. */
  ghost predicate AllBuilt<Q>(builder: nat -> Draw<Q>, calls: nat, count: nat)
  {
    forall n: nat :: calls <= n < calls + count ==> builder(n).Built?
  }

  /** The questions of `count` draws that all build one, from call `calls` on. */
  function Drawn<Q>(builder: nat -> Draw<Q>, calls: nat, count: nat): (d: seq<Q>)
    requires AllBuilt(builder, calls, count)
    ensures |d| == count
    decreases count
  {
    if count == 0 then [] else [builder(calls).question] + Drawn(builder, calls + 1, count - 1)
  }

  /** The k-th of the drawn questions is the question of call `calls + k`. */
  lemma {:induction false} DrawnAt<Q>(builder: nat -> Draw<Q>, calls: nat, count: nat, k: nat)
    requires AllBuilt(builder, calls, count) && k < count
    ensures Drawn(builder, calls, count)[k] == builder(calls + k).question
    decreases count
  {
    if k > 0 {
      DrawnAt(builder, calls + 1, count - 1, k - 1);
    }
  }

  /** A round whose first draw is fresh takes that draw, and the draws after it stay
      fresh against the window that now holds it. */
  lemma FreshRound<Q>(builder: nat -> Draw<Q>, window: seq<Q>, calls: nat, count: nat)
    requires |window| <= WindowSize && count > 0 && FreshFor(builder, calls, count, window)
    ensures var q0 := builder(calls).question;
            && Attempts(builder, window, calls, MaxAttempts()) == Outcome(Some(q0), Push(window, q0), calls + 1)
            && FreshFor(builder, calls + 1, count - 1, Push(window, q0))
  {
    var q0 := builder(calls).question;
    assert !Rejected(builder(calls), window);
    forall n: nat | calls + 1 <= n < calls + count
      ensures builder(n).Built? && builder(n).question !in Push(window, q0)
    {
      PushElements(window, q0, builder(n).question);
      assert Differ(builder, calls, n);
    }
  }

  /** With `remaining` fresh draws every round asks a question at its first attempt:
      the questions asked are the successive draws. */
  lemma {:induction false} RoundsAllFresh<Q>(builder: nat -> Draw<Q>, p: Progress<Q>, remaining: nat)
    requires |p.window| <= WindowSize && FreshFor(builder, p.calls, remaining, p.window)
    ensures var t := Rounds(builder, p, remaining);
            && t.asked == p.asked + Drawn(builder, p.calls, remaining)
            && t.calls == p.calls + remaining
    decreases remaining
  {
    if remaining > 0 {
      var q0 := builder(p.calls).question;
      FreshRound(builder, p.window, p.calls, remaining);
      var next := Progress(Push(p.window, q0), p.calls + 1, p.asked + [q0]);
      RoundsStep(builder, p, remaining, Outcome(Some(q0), Push(p.window, q0), p.calls + 1));
      RoundsAllFresh(builder, next, remaining - 1);
      var t := Rounds(builder, next, remaining - 1);
      assert Rounds(builder, p, remaining) == t;
      var rest := Drawn(builder, p.calls + 1, remaining - 1);
      assert t.asked == p.asked + [q0] + rest;
      DrawnCons(builder, p.calls, remaining);
      assert p.asked + [q0] + rest == p.asked + ([q0] + rest);
    }
  }

  /** The first of the drawn questions is the one of call `calls`. */
  lemma DrawnCons<Q>(builder: nat -> Draw<Q>, calls: nat, count: nat)
    requires AllBuilt(builder, calls, count)
    requires count > 0
    ensures Drawn(builder, calls, count) == [builder(calls).question] + Drawn(builder, calls + 1, count - 1)
  {
  }

  /** The answers to the questions asked, the k-th prompt being answered with the k-th
      scripted text. */
  function AnswersTo(asked: seq<Question>, answers: nat -> string): (r: seq<Answer>)
    ensures |r| == |asked|
  {
    if |asked| == 0 then []
    else AnswersTo(asked[..|asked| - 1], answers) + [MakeAnswer(asked[|asked| - 1], answers(|asked| - 1))]
  }

  /** The k-th question asked is answered with the k-th typed text. */
  lemma {:induction false} AnswersToAt(asked: seq<Question>, answers: nat -> string, k: nat)
    requires k < |asked|
    ensures AnswersTo(asked, answers)[k] == MakeAnswer(asked[k], answers(k))
    decreases |asked|
  {
    var init := asked[..|asked| - 1];
    if k < |init| {
      AnswersToAt(init, answers, k);
      assert asked[k] == init[k];
    }
  }

  /** Every question asked is answered with the typed text of its round. */
  lemma AnswersToAll(asked: seq<Question>, answers: nat -> string)
    ensures forall k :: 0 <= k < |asked| ==> AnswersTo(asked, answers)[k] == MakeAnswer(asked[k], answers(k))
  {
    forall k | 0 <= k < |asked|
      ensures AnswersTo(asked, answers)[k] == MakeAnswer(asked[k], answers(k))
    {
      AnswersToAt(asked, answers, k);
    }
  }

  /** The correct answers among some answers, in order. */
  function CorrectOnes(xs: seq<Answer>): seq<Answer>
  {
    if |xs| == 0 then []
    else CorrectOnes(xs[..|xs| - 1]) + (if IsCorrect(xs[|xs| - 1]) then [xs[|xs| - 1]] else [])
  }

  /** The wrong answers among some answers, in order. */
  function WrongOnes(xs: seq<Answer>): seq<Answer>
  {
    if |xs| == 0 then []
    else WrongOnes(xs[..|xs| - 1]) + (if IsCorrect(xs[|xs| - 1]) then [] else [xs[|xs| - 1]])
  }

  /** Every answer lands in exactly one of the two lists. */
  lemma {:induction false} SplitSizes(xs: seq<Answer>)
    ensures |CorrectOnes(xs)| + |WrongOnes(xs)| == |xs|
  {
    if |xs| > 0 {
      SplitSizes(xs[..|xs| - 1]);
    }
  }

  /** When every answer is correct, none is wrong. */
  lemma {:induction false} SplitAllCorrect(xs: seq<Answer>)
    requires forall k :: 0 <= k < |xs| ==> IsCorrect(xs[k])
    ensures CorrectOnes(xs) == xs && WrongOnes(xs) == []
  {
    if |xs| > 0 {
      SplitAllCorrect(xs[..|xs| - 1]);
      assert xs[..|xs| - 1] + [xs[|xs| - 1]] == xs;
    }
  }

  /** Registering one more answer extends the split. */
  lemma SplitAppend(asked: seq<Question>, q: Question, answers: nat -> string)
    ensures var a := MakeAnswer(q, answers(|asked|));
            && CorrectOnes(AnswersTo(asked + [q], answers)) ==
                 CorrectOnes(AnswersTo(asked, answers)) + (if IsCorrect(a) then [a] else [])
            && WrongOnes(AnswersTo(asked + [q], answers)) ==
                 WrongOnes(AnswersTo(asked, answers)) + (if IsCorrect(a) then [] else [a])
  {
    var xs := AnswersTo(asked + [q], answers);
    assert xs[..|xs| - 1] == AnswersTo(asked, answers);
  }

  /** The report on the answers to the questions asked. */
  function ReportOn(asked: seq<Question>, answers: nat -> string): string
  {
    var xs := AnswersTo(asked, answers);
    ReportText(|CorrectOnes(xs)|, Reprs(WrongOnes(xs)))
  }

  /** Where `run` ends for the given draws. */
  function FinalProgress(app: TrainingApp, picks: nat -> Pick): Progress<Question>
  {
    Rounds(Builder(app.kind, picks), Start(), app.questionSize)
  }

  /** What `run` returns: the report on the answers to the questions it asked. */
  function RunReport(app: TrainingApp, picks: nat -> Pick, answers: nat -> string): string
  {
    ReportOn(FinalProgress(app, picks).asked, answers)
  }

  /** The state of a questionnaire's builder and window. */
  ghost function ProgressOf<Q>(q: Questionnaire<Q>): Progress<Q>
    reads q
  {
    Progress(q.window, q.calls, q.asked)
  }

  /** The answers registered so far are those to the questions asked, split by
      verdict. */
  ghost predicate Tallied(questionnaire: Questionnaire<Question>, answers: nat -> string)
    reads questionnaire, questionnaire.stats
  {
    && questionnaire.stats.correct == CorrectOnes(AnswersTo(questionnaire.asked, answers))
    && questionnaire.stats.wrong == WrongOnes(AnswersTo(questionnaire.asked, answers))
  }

  /** One round of `run`'s loop: build a question and, when there is one, register the
      answer typed for it, the k-th question getting the k-th text. */
  method Round(questionnaire: Questionnaire<Question>, k: nat, answers: nat -> string) returns (q: Option<Question>)
    requires questionnaire.Valid() && Tallied(questionnaire, answers) && |questionnaire.asked| == k
    modifies questionnaire, questionnaire.stats
    ensures questionnaire.Valid() && Tallied(questionnaire, answers)
    ensures Outcome(q, questionnaire.window, questionnaire.calls) ==
            Attempts(questionnaire.builder, old(questionnaire.window), old(questionnaire.calls), MaxAttempts())
    ensures questionnaire.asked == if q.Some? then old(questionnaire.asked) + [q.value] else old(questionnaire.asked)
  {
    ghost var before := questionnaire.asked;
    q := questionnaire.BuildQuestion();
    if q.Some? {
      SplitAppend(before, q.value, answers);
      questionnaire.RegisterAnswer(MakeAnswer(q.value, answers(k)));
    }
  }

  /** The loop of `run` for any question builder: up to `size` rounds; the report is
      returned also when building a question raises, since the `return` sits in the
      `finally`. */
  method Quiz(builder: nat -> Draw<Question>, size: nat, answers: nat -> string) returns (report: string)
    ensures report == ReportOn(Rounds(builder, Start(), size).asked, answers)
  {
    var questionnaire := new Questionnaire<Question>(builder);
    var k: nat := 0;
    var exhausted := false;
    while k < size && !exhausted
      invariant fresh(questionnaire) && fresh(questionnaire.stats)
      invariant questionnaire.Valid() && Tallied(questionnaire, answers)
      invariant questionnaire.builder == builder
      invariant k <= size && |questionnaire.asked| == k
      invariant !exhausted ==>
                  Rounds(builder, ProgressOf(questionnaire), size - k) == Rounds(builder, Start(), size)
      invariant exhausted ==> ProgressOf(questionnaire) == Rounds(builder, Start(), size)
      decreases size - k, if exhausted then 0 else 1
    {
      ghost var start := ProgressOf(questionnaire);
      var q := Round(questionnaire, k, answers);
      ghost var now := ProgressOf(questionnaire);
      RoundsStep(builder, start, size - k, Outcome(q, now.window, now.calls));
      if q.None? {
        assert now == Rounds(builder, start, size - k);
        exhausted := true;
      } else {
        assert Rounds(builder, now, size - k - 1) == Rounds(builder, start, size - k);
        k := k + 1;
      }
    }
    ghost var final := ProgressOf(questionnaire);
    assert final == Rounds(builder, Start(), size) by {
      if !exhausted {
        assert Rounds(builder, final, 0) == final;
      }
    }
    report := questionnaire.stats.Report();
  }

  /** `run` of a training app for given draws and typed answers. */
  method Run(app: TrainingApp, picks: nat -> Pick, answers: nat -> string) returns (report: string)
    ensures report == RunReport(app, picks, answers)
  {
    report := Quiz(Builder(app.kind, picks), app.questionSize, answers);
  }

  // ---------------------------------------------------------------------------
  // What a run reports.

  /** A run asks at most `question_size` questions and registers one answer for each,
      the k-th question with the k-th typed text. */
  lemma RunTally(app: TrainingApp, picks: nat -> Pick, answers: nat -> string)
    ensures var xs := AnswersTo(FinalProgress(app, picks).asked, answers);
            && |xs| <= app.questionSize
            && |CorrectOnes(xs)| + |WrongOnes(xs)| == |xs|
  {
    RoundsExtend(Builder(app.kind, picks), Start(), app.questionSize);
    SplitSizes(AnswersTo(FinalProgress(app, picks).asked, answers));
  }

  /** A run asks all `question_size` questions unless its last round met fifty builder
      calls in a row that failed or repeated a recent question. */
  lemma RunCompletes(app: TrainingApp, picks: nat -> Pick)
    ensures var t := FinalProgress(app, picks);
            || |t.asked| == app.questionSize
            || (&& t.calls >= MaxAttempts()
                && forall n: nat :: t.calls - MaxAttempts() <= n < t.calls ==>
                     Rejected(Builder(app.kind, picks)(n), t.window))
  {
    RoundsEnd(Builder(app.kind, picks), Start(), app.questionSize);
  }

  /** When every question asked is answered correctly, the report is the bare header
      counting them all. */
  lemma PerfectRun(app: TrainingApp, picks: nat -> Pick, answers: nat -> string)
    requires var asked := FinalProgress(app, picks).asked;
             forall k :: 0 <= k < |asked| ==> IsCorrect(MakeAnswer(asked[k], answers(k)))
    ensures RunReport(app, picks, answers) == Header(|FinalProgress(app, picks).asked|)
  {
    AnswersToAll(FinalProgress(app, picks).asked, answers);
    SplitAllCorrect(AnswersTo(FinalProgress(app, picks).asked, answers));
  }

  /** A quiz over `size` fresh draws asks exactly those draws, in order. */
  lemma FreshQuizAsks<Q>(builder: nat -> Draw<Q>, size: nat)
    requires FreshFor(builder, 0, size, [])
    ensures var asked := Rounds(builder, Start(), size).asked;
            && |asked| == size
            && forall k :: 0 <= k < size ==> builder(k).Built? && asked[k] == builder(k).question
  {
    RoundsAllFresh(builder, Start(), size);
    var asked := Rounds(builder, Start(), size).asked;
    assert asked == Drawn(builder, 0, size);
    forall k | 0 <= k < size ensures builder(k).Built? && asked[k] == builder(k).question {
      DrawnAt(builder, 0, size, k);
    }
  }

  /** A quiz whose `size` draws are fresh and whose answers are all correct asks
      `size` questions and reports them all correct, with no list of wrong answers. */
  lemma FreshPerfectQuiz(builder: nat -> Draw<Question>, size: nat, answers: nat -> string)
    requires FreshFor(builder, 0, size, [])
    requires forall k :: 0 <= k < size ==> IsCorrect(MakeAnswer(builder(k).question, answers(k)))
    ensures ReportOn(Rounds(builder, Start(), size).asked, answers) == Header(size)
  {
    FreshQuizAsks(builder, size);
    var asked := Rounds(builder, Start(), size).asked;
    var xs := AnswersTo(asked, answers);
    forall k | 0 <= k < |xs| ensures IsCorrect(xs[k]) {
      AnswersToAt(asked, answers, k);
    }
    SplitAllCorrect(xs);
  }

  /** The tests' quiz: five fresh questions, all answered correctly. */
  lemma FreshFivePerfectQuiz(builder: nat -> Draw<Question>, answers: nat -> string)
    requires FreshFor(builder, 0, 5, [])
    requires forall k :: 0 <= k < 5 ==> IsCorrect(MakeAnswer(builder(k).question, answers(k)))
    ensures ReportOn(Rounds(builder, Start(), 5).asked, answers) == "\nRESULT:\n5 correct answers\n"
  {
    FreshPerfectQuiz(builder, 5, answers);
    FiveCorrectReport();
  }

  /** A triad quiz whose first `count` key draws are pairwise different draws fresh
      triads: different keys give different thirds. */
  lemma DistinctKeysFresh(picks: nat -> Pick, count: nat)
    requires forall m: nat, n: nat :: m < n < count ==> picks(m).key != picks(n).key
    ensures FreshFor(Builder(TriadTraining, picks), 0, count, [])
  {
    var b := Builder(TriadTraining, picks);
    KeysAreTheTable();
    forall n: nat | n < count ensures b(n).Built? && b(n).question !in [] {
      assert b(n) == BuildDraw(TriadTraining, picks(n));
    }
    forall m: nat, n: nat | m < n < count ensures Differ(b, m, n) {
      assert b(m) == BuildDraw(TriadTraining, picks(m));
      assert b(n) == BuildDraw(TriadTraining, picks(n));
      assert Triads.Root(b(m).question.triad) == Keys[picks(m).key];
      assert Triads.Root(b(n).question.triad) == Keys[picks(n).key];
    }
  }

  /** Key draws that walk through the table in order. */
  function InOrder(n: nat): Pick
  {
    Pick(n % 15, 0, 0)
  }

  /** A five-question triad app whose keys are drawn in table order and whose every
      answer is the expected chord reports five correct answers, as the tests' run
      does. */
  lemma TriadFivePerfectRun(answers: nat -> string)
    requires forall k :: 0 <= k < 5 ==> answers(k) == Expected(Builder(TriadTraining, InOrder)(k).question)
    ensures NewTrainingApp(TriadTraining, 5).Ok?
    ensures RunReport(NewTrainingApp(TriadTraining, 5).value, InOrder, answers) == "\nRESULT:\n5 correct answers\n"
  {
    var app := NewTrainingApp(TriadTraining, 5).value;
    assert app == TrainingApp(TriadTraining, 5);
    var b := Builder(TriadTraining, InOrder);
    DistinctKeysFresh(InOrder, 5);
    forall k | 0 <= k < 5 ensures IsCorrect(MakeAnswer(b(k).question, answers(k))) {
      ExpectedIsCorrect(b(k).question, answers(k));
    }
    FreshFivePerfectQuiz(b, answers);
  }

  /** An interval quiz on a tune outside the table cannot build a single question: it
      reports no correct answer and no wrong one. */
  lemma UnknownTuneRun(tune: string, exclude: bool, size: nat, picks: nat -> Pick, answers: nat -> string)
    requires tune !in MajorScales
    ensures RunReport(TrainingApp(IntervalTraining(tune, exclude), size), picks, answers) == Header(0)
  {
    var b := Builder(IntervalTraining(tune, exclude), picks);
    forall n: nat ensures b(n).Failed? {
      assert b(n) == BuildDraw(IntervalTraining(tune, exclude), picks(n));
    }
    RoundsNothingBuilt(b, Start(), size);
  }
}
