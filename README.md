# interval-training, modelled in Dafny

This project models the spelling engine and quiz bookkeeping of *interval-training*. That program is a small ear-and-theory trainer. It asks for the spelling of an interval (for example "the 3# th of D", which is "Fx") or of a major triad ("C maj", which is "C,E,G"). At the end it prints a report of the answers.

The model has the following modules:

- `Scales`: the table of the fifteen major scales of the circle of fifths.
- `Intervals`: an interval is a key, a degree and an alteration.
  - It is validated when it is built.
  - It renders as the diatonic note plus the alteration, rewritten by a fixed chain of `str.replace` calls.
  - It also has a prompt, field-wise equality and an answer class.
  - The rendering is proved against an independent reference: an accidental is a signed number of semitones. Construction succeeds exactly when the letter's own accidental plus the alteration stays within two semitones. The rendering is then the letter followed by the token for that net offset.
- `Triads` and `Chords3`: the two identical chord classes. Each is a third and a fifth over a key, rendered "root,third,fifth", with an exact-match answer.
- `Questions`: the three question kinds and answer kinds as closed unions. Python's `==` between questions is shown to be value equality.
- `Stats`: `QuestionStats`, a class with the two answer lists that `register` appends to, plus the report text.
- `Questionnaires`: `Questionnaire`.
  - It is a class whose `build_question` loop makes up to fifty builder calls.
  - It keeps a window of the last seven questions.
  - The loop is proved against a recursive specification, `Attempts`.
  - It is generic in the question type, as the Python class is.
- `Training`: `TrainingApp` construction, the builders of the three apps, and `run`.
  - `run` is a method whose loop is proved against the specification `Rounds`.
  - The report is returned also when a round cannot build a question.

The builder's random draws and the text typed at the prompt are parameters, given as streams indexed by call number.

## Model

| member | source | states |
|---|---|---|
| Scales.KeysAreTheTable | interval_training/lib.py:9-25 | the table has fifteen distinct keys, listed in the table's own order |
| Scales.TableSize | interval_training/lib.py:9-25 | the table has exactly fifteen keys |
| Scales.RowSpelling | interval_training/lib.py:9-25 | the scale of each key starts on that key and lists seven note names |
| Scales.TableSpelling | interval_training/lib.py:9-25 | every scale starts on its key. Every entry is a letter A-G with at most one "b" or "#" |
| Scales.KeyIsTonic | interval_training/lib.py:9-25 | the first entry of every scale is its key |
| Scales.IsNoteName | interval_training/lib.py:10-24 | definition: a letter A-G, optionally followed by one "b" or "#", the form of every table entry |
| Scales.MajorScales | interval_training/lib.py:9-25 | definition: the fifteen keys, each mapped to its seven scale notes |
| Scales.Keys | interval_training/lib.py:30-31 | definition: the keys in the order `list(MAJOR_SCALES)` gives, from which `random_scale` draws |
| Text.ReplaceAllAbsent | interval_training/interval.py:107 | `str.replace` leaves a string without the pattern unchanged |
| Text.ReplacePairIsReplaceAll | interval_training/interval.py:93-97 | the character-level scan replaces a two-character pattern exactly as `str.replace` does |
| Text.ReplaceCharIsReplaceAll | interval_training/interval.py:47 | the character-level scan replaces a one-character pattern exactly as `str.replace` does |
| Text.CountChar | interval_training/interval.py:47 | `str.count` of one character is at most the length, and zero exactly when the character does not occur |
| Text.NatToStringRoundTrip | interval_training/interval.py:77 | the decimal text of a number reads back as that number |
| Text.LeadingDigitsOf | interval_training/interval.py:77 | the digit prefix of a number's text followed by a non-digit is that text |
| Text.JoinLinesAppend | interval_training/lib.py:59 | `"\n".join` of one more line appends a newline and the line |
| Text.FirstFieldOf | interval_training/triad.py:28 | a comma-free field followed by a comma is the first comma-separated field |
| Text.ReplaceAll | interval_training/interval.py:93-97 | definition: `str.replace`, replacing every non-overlapping occurrence from left to right |
| Text.NatToString | interval_training/interval.py:77 | definition: the decimal digits of `str(n)` for n >= 0 |
| Text.IntToString | interval_training/interval.py:77 | definition: `str(n)` for any integer, with a leading "-" when negative |
| Text.JoinLines | interval_training/lib.py:59 | definition: `"\n".join(lines)` |
| Intervals.PythonIndex | interval_training/interval.py:80 | a negative Python index counts from the end, and the position is in range |
| Intervals.MajorInterval | interval_training/interval.py:79-80 | the diatonic note of a degree is a note name, and for degree d >= 1 it is entry (d - 1) mod 7 of the key's scale |
| Intervals.DegreeIndex | interval_training/interval.py:80 | index `degree % 7 - 1`, with -1 meaning the last entry, is position `(degree - 1) mod 7`, so degree 7 is the seventh entry |
| Intervals.Create | interval_training/interval.py:20-48 | construction succeeds exactly for valid parts. Otherwise the first failing check decides the error: unknown root, then invalid degree, then invalid alteration. When all three pass and the spelling check fails, the error is the unspellable one, carrying the diatonic note plus the alteration |
| Intervals.CreateSucceedsIff | interval_training/interval.py:27-48 | for valid parts, construction succeeds exactly when the net accidental stays within two semitones |
| Intervals.NoteSpelling | interval_training/interval.py:45-48 | for any note name and alteration, the triple-accidental test fails exactly beyond two semitones. Otherwise the replacement chain yields the letter and the net accidental |
| Intervals.RenderByOffset | interval_training/interval.py:91-98 | every interval renders as its letter followed by the token of its net offset, which is at most two semitones |
| Intervals.RenderShape | interval_training/interval.py:91-98 | every rendering is the diatonic letter followed by one of "", "b", "#", "bb", "x" |
| Intervals.RenderNatural | interval_training/interval.py:91-98 | without an alteration the rendering is the scale entry unchanged |
| Intervals.RenderHasNoDoubleSharp | interval_training/interval.py:91-98 | a rendering never contains "##" |
| Intervals.SpellByOffset | interval_training/interval.py:45-98 | `str(Interval(...))` for valid parts is the letter with the net accidental, or the unspellable error naming the diatonic note plus the alteration |
| Intervals.CompoundDegree | interval_training/interval.py:79-80 | degrees 8, 9, 11 and 13 give exactly the result of the degree an octave lower: the same spelling or the same error |
| Intervals.Equals | interval_training/interval.py:82-89 | interval equality holds exactly when root, degree and alteration agree |
| Intervals.EqualityIsNotRendering | interval_training/interval.py:82-89 | the ninth and the second of C both render "D" and are not equal |
| Intervals.Random | interval_training/interval.py:50-62 | the result keeps the root and has an accepted degree and alteration. With alterations excluded it succeeds exactly for a known root and has no alteration. An unknown root raises the root error; the only other possible error is an unspellable spelling |
| Intervals.RandomReachesAll | interval_training/interval.py:50-62 | every valid interval can be drawn, and every one without an alteration can be drawn with alterations excluded |
| Intervals.PromptParts | interval_training/interval.py:76-77 | a number's digits, then any text not starting with a digit, then " th" read back as that number and that text |
| Intervals.PromptRoundTrip | interval_training/interval.py:76-77 | the prompt "{degree}{alteration} th" reads back as the degree and the alteration |
| Intervals.PromptDeterminesQuestion | interval_training/interval.py:76-77 | two intervals with the same prompt have the same degree and alteration |
| Intervals.AnswerCorrectIff | interval_training/interval.py:106-107 | an answer without "##" is correct exactly when it equals the rendering |
| Intervals.RenderingAccepted | interval_training/interval.py:106-107 | typing the rendering is always correct |
| Intervals.SpelledOutDoubleSharpAccepted | interval_training/interval.py:106-107 | a double sharp may be typed as "##" |
| Intervals.SpellsAs | interval_training/interval.py:91-98 | a spelling worked out from the offset reference is the rendering |
| Intervals.SpellingExamplesSecond | tests/test_intervals.py:11-14 | C2 spells "D", C2# spells "D#", C2b spells "Db" |
| Intervals.SpellingExampleDoubleFlat | tests/test_intervals.py:15 | C2bb spells "Dbb" |
| Intervals.SpellingExampleDoubleSharp | tests/test_intervals.py:16 | C2x spells "Dx" |
| Intervals.SpellingExamplesCompound | tests/test_intervals.py:20-22 | C9, C11 and C13 spell "D", "F" and "A" |
| Intervals.SpellingExamplesSharpBase | tests/test_intervals.py:18-19 | D3# spells "Fx", D3b spells "F" |
| Intervals.SpellingExamplesFlatBase | tests/test_intervals.py:17-23 | Db5b spells "Abb", Cb4x spells "F#" |
| Intervals.DegreeErrorExample | tests/test_intervals.py:33-38 | degree 22 is refused with the degree error |
| Intervals.RootErrorExample | tests/test_intervals.py:39-46 | root "G#" is refused with the root error |
| Intervals.UnspellableExample | tests/test_intervals.py:47 | A6x is refused, with the message "Invalid interval F#x" |
| Intervals.AlterationErrorExample | tests/test_intervals.py:48-53 | the alteration "##" is refused with the alteration error |
| Intervals.AnswerExamples | tests/test_intervals.py:62-64 | "C" is correct for the unison of C, and "C#" is wrong |
| Intervals.UnisonRendersKey | interval_training/interval.py:91-98 | the unison of every key is valid and renders as the key |
| Intervals.UnisonAnswerRepr | tests/test_intervals.py:66-69 | the answer repr for any key's unison is "question 1 th, user answer U - correct answer KEY" |
| Intervals.IntervalAnswerRepr | interval_training/interval.py:109-113 | the answer text of any interval question is its degree and alteration, the user's text, then the diatonic letter with the net accidental |
| Intervals.Message | interval_training/interval.py:28-48 | definition: the text of each `ValueError`, with the keys and the accepted lists written out as Python prints them |
| Intervals.Spellable | interval_training/interval.py:46-47 | definition: at most two "b" in the checked text, and at most two "#" once every "x" is written "##" |
| Intervals.Valid | interval_training/interval.py:27-48 | definition: the root is a table key, the degree and the alteration are accepted, and "bb"/"x" spellings pass the count test |
| Intervals.Normalize | interval_training/interval.py:93-97 | definition: the five `replace` calls in order: "##"→"x", "#b"→"", "b#"→"", "bx"→"#", "xb"→"#" |
| Intervals.Render | interval_training/interval.py:91-98 | definition: `__repr__`, the diatonic note with the alteration appended, then normalised |
| Intervals.Spell | interval_training/interval.py:20-98 | definition: `str(Interval(root, degree, alteration))`, or the error construction raises |
| Intervals.PromptMsg | interval_training/interval.py:76-77 | definition: the degree, the alteration, then " th" |
| Intervals.ParsePrompt | interval_training/interval.py:76-77 | definition: reads a prompt back, as leading digits, a middle text and the closing " th" |
| Intervals.IsCorrect | interval_training/interval.py:106-107 | definition: the rendering equals the typed text with "##" replaced by "x" |
| Intervals.AnswerRepr | interval_training/interval.py:109-113 | definition: "question {prompt}, user answer {text} - correct answer {rendering}" |
| Intervals.Degrees | interval_training/interval.py:16 | definition: the accepted degrees 1 to 9, 11 and 13 |
| Intervals.Alterations | interval_training/interval.py:17 | definition: the accepted alterations "", "b", "#", "bb" and "x" |
| Triads.FromRoot | interval_training/triad.py:16-18 | succeeds exactly for the table's keys, with the major third and the fifth; any other root fails with the root error |
| Triads.Equals | interval_training/triad.py:30-35 | triad equality holds exactly when the thirds and the fifths are equal |
| Triads.FromRootRepr | interval_training/triad.py:27-28 | a key's triad renders as the key, the third scale entry and the fifth scale entry, separated by commas |
| Triads.FromRootReprField | interval_training/triad.py:27-28 | the first field of a key's triad repr is the key |
| Triads.AnswerIdentifiesKey | interval_training/triad.py:43-44 | the repr of another key's triad is a correct answer exactly when the keys are the same |
| Triads.PromptDeterminesTriad | interval_training/triad.py:20-25 | the prompt "{root} maj" fixes the triad |
| Triads.CMajorExample | tests/test_triad.py:23-27 | the C triad is "C,E,G" |
| Triads.DistinctTriadsExample | tests/test_triad.py:28-29 | the C triad is built from C3 and C5 and differs from the D triad |
| Triads.TriadAnswerExamples | tests/test_triad.py:11-15 | "C,E,G" is correct for C major and "D,E,G" is not |
| Triads.KeyAnswerRepr | interval_training/triad.py:46-47 | the answer repr of any key's triad is "question KEY, user answer U correct answer KEY,THIRD,FIFTH", read off the scale |
| Triads.Root | interval_training/triad.py:20-22 | definition: the root of the third |
| Triads.PromptMsg | interval_training/triad.py:24-25 | definition: the root, then " maj" |
| Triads.Repr | interval_training/triad.py:27-28 | definition: the root, the third and the fifth, separated by commas |
| Triads.IsCorrect | interval_training/triad.py:43-44 | definition: the typed text equals the repr exactly |
| Triads.AnswerRepr | interval_training/triad.py:46-47 | definition: "question {root}, user answer {text} correct answer {repr}" |
| Chords3.FromRoot | interval_training/chord3.py:16-18 | succeeds exactly for the table's keys, with the major third and the fifth; any other root fails with the root error |
| Chords3.Equals | interval_training/chord3.py:30-35 | chord equality holds exactly when the thirds and the fifths are equal |
| Chords3.FromRootRepr | interval_training/chord3.py:27-28 | a key's chord renders as the key, the third scale entry and the fifth scale entry |
| Chords3.FromRootReprField | interval_training/chord3.py:27-28 | the first field of a key's chord repr is the key |
| Chords3.AnswerIdentifiesKey | interval_training/chord3.py:43-44 | the repr of another key's chord is a correct answer exactly when the keys are the same |
| Chords3.PromptDeterminesChord3 | interval_training/chord3.py:20-25 | the prompt fixes the chord |
| Chords3.CMajorExample | tests/test_chord3.py:24-28 | the C chord is "C,E,G" |
| Chords3.DistinctChordsExample | tests/test_chord3.py:29-30 | the C chord is built from C3 and C5 and differs from the D chord |
| Chords3.Chord3AnswerExamples | tests/test_chord3.py:12-16 | "C,E,G" is correct for C major and "D,E,G" is not |
| Chords3.KeyAnswerRepr | interval_training/chord3.py:46-47 | the answer repr of any key's chord, read off the scale |
| Chords3.AgreesWithTriad | interval_training/chord3.py:11-47 | the copy gives the same prompt, the same repr and the same verdict as the triad for every key and every answer |
| Chords3.Root | interval_training/chord3.py:20-22 | definition: the root of the third |
| Chords3.PromptMsg | interval_training/chord3.py:24-25 | definition: the root, then " maj" |
| Chords3.Repr | interval_training/chord3.py:27-28 | definition: the root, the third and the fifth, separated by commas |
| Chords3.IsCorrect | interval_training/chord3.py:43-44 | definition: the typed text equals the repr exactly |
| Chords3.AnswerRepr | interval_training/chord3.py:46-47 | definition: "question {root}, user answer {text} correct answer {repr}" |
| Questions.Same | interval_training/interval.py:82-89 | Python `==` between two questions is value equality, and is False across kinds |
| Questions.MembershipBySame | interval_training/lib.py:87 | `question in window` is membership by `==` |
| Questions.TriadIsNotChord3 | interval_training/chord3.py:30-35 | a key's triad and chord have the same prompt and are still not equal |
| Questions.MakeAnswer | interval_training/lib.py:114 | `_answer` wraps the typed text with the question it answers |
| Questions.ExpectedIsCorrect | interval_training/triad.py:43-44 | the expected text is always correct; for triads and chords it is the only correct text |
| Questions.PromptMsg | interval_training/lib.py:68-69 | definition: `prompt_msg` of the question, dispatched to its kind |
| Questions.IsCorrect | interval_training/lib.py:34-35 | definition: `is_correct` of the answer, dispatched to its kind |
| Questions.Repr | interval_training/lib.py:59 | definition: `str(answer)`, dispatched to the answer's kind |
| Questions.Expected | interval_training/interval.py:106-107 | definition: the text a correct answer types: the rendering, or the chord's repr |
| Stats.ReprsAt | interval_training/lib.py:59 | the k-th line of the wrong-answer recap is the repr of the k-th wrong answer |
| Stats.ReprsAppend | interval_training/lib.py:59 | one more wrong answer adds its repr last |
| Stats.ReportCount | interval_training/lib.py:57-65 | the report opens with "\nRESULT:\n" followed by the number of correct answers |
| Stats.ReportIsHeaderIff | interval_training/lib.py:57-65 | the report is the bare header exactly when there is no wrong answer |
| Stats.ReportAppendsWrong | interval_training/lib.py:57-65 | each further wrong answer adds one line at the end, in registration order |
| Stats.ReportFirstWrong | interval_training/lib.py:57-65 | the first wrong answer follows "Wrong answers:\n" |
| Stats.FiveCorrectReport | tests/test_lib.py:83-87 | five correct answers and no wrong ones give "\nRESULT:\n5 correct answers\n" |
| Stats.QuestionStats.constructor | interval_training/lib.py:39-41 | both lists start empty |
| Stats.QuestionStats.Register | interval_training/lib.py:43-47 | the answer goes at the end of the list its verdict selects, and the other list is unchanged |
| Stats.Header | interval_training/lib.py:58 | definition: "\nRESULT:\n{count} correct answers\n" |
| Stats.Reprs | interval_training/lib.py:59 | definition: the reprs of the wrong answers, in order, one per answer |
| Stats.ReportText | interval_training/lib.py:57-65 | definition: the header, followed by "Wrong answers:\n" and the joined reprs when there is a wrong answer |
| Stats.QuestionStats.Report | interval_training/lib.py:57-65 | definition: `__repr__`, the report text of the two lists |
| Questionnaires.Recent | interval_training/lib.py:81 | the window holds at most seven questions |
| Questionnaires.Push | interval_training/lib.py:88 | appending keeps at most seven entries |
| Questionnaires.PushIsRecent | interval_training/lib.py:81-88 | appending to the bounded deque keeps the last seven entries, so a full window drops its oldest. The new question is last |
| Questionnaires.PushElements | interval_training/lib.py:88 | the new window holds only old entries and the new question |
| Questionnaires.PushRecent | interval_training/lib.py:81-88 | the window stays the last seven questions of the history |
| Questionnaires.Attempts | interval_training/lib.py:84-94 | at most `remaining` builder calls are made. A failed outcome leaves the window unchanged after using every attempt |
| Questionnaires.AttemptsOutcome | interval_training/lib.py:84-94 | the returned question is the last draw made and was not in the window, and it is pushed onto the window. Every earlier draw raised or repeated a recent question. Without a question, every draw was rejected |
| Questionnaires.FreshKeepsNoRecentRepeat | interval_training/lib.py:87-89 | a question outside the window never repeats one of the seven before it |
| Questionnaires.FreshKeepsWindow | interval_training/lib.py:87-89 | appending a fresh question keeps the window invariant |
| Questionnaires.Questionnaire.constructor | interval_training/lib.py:77-81 | empty window, no builder calls and an empty tally |
| Questionnaires.Questionnaire.BuildQuestion | interval_training/lib.py:83-94 | the loop's result, window and call count are those of `Attempts` over fifty tries. The window stays the last seven questions asked, and no question repeats one of the seven before it |
| Questionnaires.Questionnaire.RegisterAnswer | interval_training/lib.py:96-97 | the answer is registered in the tally, and nothing else changes |
| Questionnaires.Rejected | interval_training/lib.py:85-92 | definition: a draw is rejected when it raised or when its question is already in the window |
| Questionnaires.NoRecentRepeat | interval_training/lib.py:81-89 | definition: no question in the history equals one of the seven before it |
| Questionnaires.WindowSize | interval_training/lib.py:81 | definition: `deque(maxlen=7)` remembers seven questions |
| Questionnaires.MaxAttempts | interval_training/lib.py:84 | definition: `range(50, 0, -1)` allows fifty builder calls per question |
| Training.NewTrainingApp | interval_training/lib.py:104-108 | an app is built exactly when the question count exceeds one; otherwise the error is "At least 2 questions should be used" |
| Training.RandomScale | interval_training/lib.py:30-31 | the drawn key is a key of the table |
| Training.BuildDraw | interval_training/interval.py:116-122 | the interval builder raises for an unknown tune. With alterations excluded it returns the tune's unaltered interval. The triad and chord builders never raise and use a table key |
| Training.Rounds | interval_training/lib.py:116-125 | the run's rounds keep the window bounded |
| Training.RoundsExtend | interval_training/lib.py:120-123 | the rounds only append questions, at most one per round |
| Training.RoundsEnd | interval_training/lib.py:119-125 | every round asks a question, unless the run ended after fifty rejected builder calls |
| Training.RoundsNothingBuilt | interval_training/lib.py:119-125 | a builder that always raises ends the run with nothing asked |
| Training.DrawnAt | interval_training/lib.py:86 | the k-th of the drawn questions is the question of the k-th builder call |
| Training.FreshRound | interval_training/lib.py:83-89 | when the next `count` draws are fresh, a round returns the first of them after one builder call and pushes it onto the window. The remaining `count - 1` draws stay fresh against the new window |
| Training.RoundsAllFresh | interval_training/lib.py:83-89 | when the next `remaining` draws build questions that are pairwise different and not in the window, the rounds ask exactly those draws, one builder call each |
| Training.AnswersToAt | interval_training/lib.py:121-123 | the k-th question asked is answered with the k-th typed text |
| Training.SplitSizes | interval_training/lib.py:43-47 | every answer lands in exactly one of the two lists |
| Training.SplitAllCorrect | interval_training/lib.py:43-47 | when all answers are correct, none is wrong and the correct list is all of them |
| Training.SplitAppend | interval_training/lib.py:43-47 | registering one more answer extends the split |
| Training.Round | interval_training/lib.py:121-123 | one round builds a question as `Attempts` says, and when it gets one, tallies the k-th typed answer |
| Training.Quiz | interval_training/lib.py:116-125 | the loop returns the report on the answers to the questions from `Rounds`, whether it ends early or not |
| Training.Run | interval_training/lib.py:116-125 | `run` returns the report on the questions its rounds asked |
| Training.RunTally | interval_training/lib.py:120-123 | a run registers at most `question_size` answers, each in one list |
| Training.RunCompletes | interval_training/lib.py:119-125 | a run asks all its questions, unless it ended after fifty rejected draws |
| Training.PerfectRun | interval_training/lib.py:116-125 | all answers correct gives the bare header with the number of questions asked |
| Training.FreshQuizAsks | interval_training/lib.py:116-125 | a quiz over `size` fresh draws asks exactly the first `size` draws, in order |
| Training.FreshPerfectQuiz | interval_training/lib.py:116-125 | when the first `size` draws are fresh and every answer is correct, the report is the header counting all `size` questions |
| Training.FreshFivePerfectQuiz | tests/test_lib.py:83-87 | five fresh questions answered correctly report "\nRESULT:\n5 correct answers\n" |
| Training.DistinctKeysFresh | interval_training/triad.py:50-52 | the triad builder with pairwise different key draws gives fresh draws |
| Training.TriadFivePerfectRun | tests/test_lib.py:83-87 | `__init__` accepts a five-question triad app. Drawing keys in table order and answered with the expected chords, its run returns "\nRESULT:\n5 correct answers\n" |
| Training.UnknownTuneRun | interval_training/interval.py:28-31 | an interval quiz on an unknown tune reports zero correct answers and no wrong ones |
| Training.Builder | interval_training/lib.py:111 | definition: `_question_builder()`, as the stream of what successive calls return |
| Training.CorrectOnes | interval_training/lib.py:44-45 | definition: the correct answers among some answers, in order |
| Training.WrongOnes | interval_training/lib.py:46-47 | definition: the wrong answers among some answers, in order |
| Training.AnswersTo | interval_training/lib.py:121-123 | definition: the answers built from the questions asked and the typed texts |
| Training.ReportOn | interval_training/lib.py:125 | definition: the report on the answers to the questions asked |
| Training.RunReport | interval_training/lib.py:116-125 | definition: what `run` returns for given draws and typed answers |
| Training.Start | interval_training/lib.py:117 | definition: the fresh `Questionnaire` of a run: empty window, no builder calls, nothing asked |

## Left out

- interval_training/main.py is not part of this model. It is an older command line that no longer matches lib.py: it calls `QuestionBuilder` as a class. Its tests (tests/test_main.py:21) expect "Fx#" for A6x, which the current validation refuses.
- Console input and output are not modelled: `click.prompt` becomes the stream of typed answers, and `print` and `logging` are left out.
- Randomness is not modelled. `random.choices`, its weights 100/50/50/10/10 and `random_scale` become the given draws (`Pick`). Only which results are possible is stated, not how likely they are.
- The `Protocol` and `ABC` machinery is not modelled: the question and answer kinds are closed datatypes. The tests' `DummyQuestion` uses identity equality, which has no value counterpart. `FreshFivePerfectQuiz` states that test's run for any builder whose first five draws build five pairwise different questions. `TriadFivePerfectRun` gives such a run with the triad app.
- Other exceptions escaping the builder or `click.prompt` are not modelled. The model has only the `ValueError`s of construction and "too many attempt".
- Intervals.Message: the texts of the root, degree and alteration errors are written out. They are not proved equal to the tests' strings, because Dafny does not evaluate literals this long without help. The tests' error kinds are proved, and the full "Invalid interval F#x" message is proved.
- Intervals.Create: takes its degree as an integer. Python would also accept `True` or `1.0` as a degree.
- Text.ReplaceAll: requires a non-empty pattern. The program never replaces an empty string.
- Training.Run: the typed answers and the builder draws are total streams. A script that runs out, or typing interrupted, is not modelled.
