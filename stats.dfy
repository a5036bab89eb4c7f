/**
 * `QuestionStats` of interval_training/lib.py: the answers registered so far,
 * split into correct and wrong, and the report printed at the end of a quiz.
 */
module Stats {
  import opened Wrappers
  import opened Text
  import opened Questions

  /** The first line of the report: how many answers were correct. */
  function Header(count: nat): string
  {
    "\nRESULT:\n" + NatToString(count) + " correct answers\n"
  }

  /** The reprs of some answers, one line per answer. */
  function Reprs(answers: seq<Answer>): (lines: seq<string>)
    ensures |lines| == |answers|
  {
    if |answers| == 0 then []
    else Reprs(answers[..|answers| - 1]) + [Repr(answers[|answers| - 1])]
  }

  /** The k-th line is the k-th answer's repr. */
  lemma {:induction false} ReprsAt(answers: seq<Answer>, k: nat)
    requires k < |answers|
    ensures Reprs(answers)[k] == Repr(answers[k])
    decreases |answers|
  {
    var init := answers[..|answers| - 1];
    if k < |init| {
      ReprsAt(init, k);
      assert answers[k] == init[k];
    }
  }

  /** One more answer adds its repr at the end. */
  lemma ReprsAppend(answers: seq<Answer>, a: Answer)
    ensures Reprs(answers + [a]) == Reprs(answers) + [Repr(a)]
  {
    assert (answers + [a])[..|answers|] == answers;
  }

  /** `QuestionStats.__repr__` for `count` correct answers and the reprs of the wrong
      ones: the header, then the wrong answers one per line when there are any. */
  function ReportText(count: nat, wrongLines: seq<string>): string
  {
    if |wrongLines| > 0 then Header(count) + "Wrong answers:\n" + JoinLines(wrongLines)
    else Header(count)
  }

  /** Reads the number of correct answers back from a report. */
  function ReadCount(report: string): Option<nat>
  {
    var prefix := "\nRESULT:\n";
    if |report| < |prefix| || report[..|prefix|] != prefix then None
    else
      var digits := LeadingDigits(report[|prefix|..]);
      if |digits| == 0 then None else Some(DigitsValue(digits))
  }

  /** The report states the number of correct answers. */
  lemma ReportCount(count: nat, wrongLines: seq<string>)
    ensures ReadCount(ReportText(count, wrongLines)) == Some(count)
  {
    var prefix := "\nRESULT:\n";
    var digits := NatToString(count);
    var tail := " correct answers\n" + (if |wrongLines| > 0 then "Wrong answers:\n" + JoinLines(wrongLines) else "");
    assert ReportText(count, wrongLines) == prefix + (digits + tail);
    assert (prefix + (digits + tail))[..|prefix|] == prefix;
    assert (prefix + (digits + tail))[|prefix|..] == digits + tail;
    assert tail[0] == ' ';
    LeadingDigitsOf(digits, tail);
    NatToStringRoundTrip(count);
  }

  /** The report is the bare header exactly when no answer was wrong. */
  lemma ReportIsHeaderIff(count: nat, wrongLines: seq<string>)
    ensures ReportText(count, wrongLines) == Header(count) <==> wrongLines == []
  {
    if |wrongLines| > 0 {
      assert |ReportText(count, wrongLines)| > |Header(count)|;
    }
  }

  /** One more wrong answer adds one line at the end of the report: the wrong answers
      are listed in the order they were registered. */
  lemma ReportAppendsWrong(count: nat, wrongLines: seq<string>, line: string)
    requires |wrongLines| > 0
    ensures ReportText(count, wrongLines + [line]) == ReportText(count, wrongLines) + "\n" + line
  {
    JoinLinesAppend(wrongLines, line);
  }

  /** The first wrong answer opens the list of wrong answers. */
  lemma ReportFirstWrong(count: nat, line: string)
    ensures ReportText(count, [line]) == Header(count) + "Wrong answers:\n" + line
  {
  }

  /** The tests' report after five correct answers and no wrong one. */
  lemma FiveCorrectReport()
    ensures ReportText(5, []) == "\nRESULT:\n5 correct answers\n"
  {
    assert NatToString(5) == "5";
  }

  /** `QuestionStats`: the two lists of answers, appended to as answers are registered. */
  class QuestionStats {
    var correct: seq<Answer>
    var wrong: seq<Answer>

    /** A fresh tally: no answers yet. */
    constructor()
      ensures correct == [] && wrong == []
    {
      correct := [];
      wrong := [];
    }

    /** `register`: the answer goes at the end of the list its correctness selects; the
        other list is left as it was. */
    method Register(a: Answer)
      modifies this
      ensures IsCorrect(a) ==> correct == old(correct) + [a] && wrong == old(wrong)
      ensures !IsCorrect(a) ==> wrong == old(wrong) + [a] && correct == old(correct)
    {
      if IsCorrect(a) {
        correct := correct + [a];
      } else {
        wrong := wrong + [a];
      }
    }

    /** `__repr__`. */
    function Report(): string
      reads this
    {
      ReportText(|correct|, Reprs(wrong))
    }
  }
}
