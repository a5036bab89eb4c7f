/**
 * The `Question` and `Answer` protocols of interval_training/lib.py, closed over
 * the three kinds of question the training apps ask.
 */
module Questions {
  import Scales
  import Intervals
  import Triads
  import Chords3

  /** A question one of the apps can ask. */
  datatype Question =
    | IntervalQuestion(interval: Intervals.ValidInterval)
    | TriadQuestion(triad: Triads.Triad)
    | Chord3Question(chord: Chords3.Chord3)

  /** `prompt_msg` of each kind. */
  function PromptMsg(q: Question): string
  {
    match q
    case IntervalQuestion(i) => Intervals.PromptMsg(i)
    case TriadQuestion(t) => Triads.PromptMsg(t)
    case Chord3Question(c) => Chords3.PromptMsg(c)
  }

  /** Python's `a == b` between questions: the `__eq__` of `a`'s class, which is False
      when `b` is of another class (every question object is truthy, so the `if other`
      guard never fails). */
  function Same(a: Question, b: Question): (r: bool)
    ensures r <==> a == b
  {
    match (a, b)
    case (IntervalQuestion(x), IntervalQuestion(y)) => Intervals.Equals(x, y)
    case (TriadQuestion(x), TriadQuestion(y)) => Triads.Equals(x, y)
    case (Chord3Question(x), Chord3Question(y)) => Chords3.Equals(x, y)
    case _ => false
  }

  /** Python's `q in window` on a deque compares with `==`, so it is membership of the
      same value. */
  lemma MembershipBySame(q: Question, window: seq<Question>)
    ensures q in window <==> exists k :: 0 <= k < |window| && Same(window[k], q)
  {
    if q in window {
      var k :| 0 <= k < |window| && window[k] == q;
      assert Same(window[k], q);
    }
  }

  /** A triad and a chord on the same key are different questions, though they are
      asked and answered alike. */
  lemma TriadIsNotChord3(root: string)
    requires root in Scales.MajorScales
    ensures Triads.FromRoot(root).Ok? && Chords3.FromRoot(root).Ok?
    ensures !Same(TriadQuestion(Triads.FromRoot(root).value), Chord3Question(Chords3.FromRoot(root).value))
    ensures PromptMsg(TriadQuestion(Triads.FromRoot(root).value)) ==
            PromptMsg(Chord3Question(Chords3.FromRoot(root).value))
  {
  }

  /** An answer of one of the three kinds. */
  datatype Answer =
    | IntervalAnswer(intervalAnswer: Intervals.IntervalAnswer)
    | TriadAnswer(triadAnswer: Triads.TriadAnswer)
    | Chord3Answer(chordAnswer: Chords3.Chord3Answer)

  /** `is_correct` of each kind. */
  predicate IsCorrect(a: Answer)
  {
    match a
    case IntervalAnswer(x) => Intervals.IsCorrect(x)
    case TriadAnswer(x) => Triads.IsCorrect(x)
    case Chord3Answer(x) => Chords3.IsCorrect(x)
  }

  /** `__repr__` of each kind. */
  function Repr(a: Answer): string
  {
    match a
    case IntervalAnswer(x) => Intervals.AnswerRepr(x)
    case TriadAnswer(x) => Triads.AnswerRepr(x)
    case Chord3Answer(x) => Chords3.AnswerRepr(x)
  }

  /** The question an answer is about. */
  function QuestionOf(a: Answer): Question
  {
    match a
    case IntervalAnswer(x) => IntervalQuestion(x.interval)
    case TriadAnswer(x) => TriadQuestion(x.triad)
    case Chord3Answer(x) => Chord3Question(x.chord)
  }

  /** The text the user typed. */
  function UserText(a: Answer): string
  {
    match a
    case IntervalAnswer(x) => x.userAnswer
    case TriadAnswer(x) => x.userAnswer
    case Chord3Answer(x) => x.userAnswer
  }

  /** `TrainingApp._answer`: each app wraps the typed text in the answer class of its
      question's kind. */
  function MakeAnswer(q: Question, text: string): (a: Answer)
    ensures QuestionOf(a) == q && UserText(a) == text
  {
    match q
    case IntervalQuestion(i) => IntervalAnswer(Intervals.IntervalAnswer(i, text))
    case TriadQuestion(t) => TriadAnswer(Triads.TriadAnswer(t, text))
    case Chord3Question(c) => Chord3Answer(Chords3.Chord3Answer(c, text))
  }

  /** The text an app accepts for a question: the rendering or repr it compares with. */
  function Expected(q: Question): string
  {
    match q
    case IntervalQuestion(i) => Intervals.Render(i)
    case TriadQuestion(t) => Triads.Repr(t)
    case Chord3Question(c) => Chords3.Repr(c)
  }

  /** Typing the expected text is always a correct answer, and for the triad and chord
      questions it is the only correct answer. */
  lemma ExpectedIsCorrect(q: Question, text: string)
    ensures IsCorrect(MakeAnswer(q, Expected(q)))
    ensures !q.IntervalQuestion? ==> (IsCorrect(MakeAnswer(q, text)) <==> text == Expected(q))
  {
    if q.IntervalQuestion? {
      Intervals.RenderingAccepted(q.interval);
    }
  }
}
