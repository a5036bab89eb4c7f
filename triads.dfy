/**
 * interval_training/triad.py: a major triad asked by its key and answered as
 * "root,third,fifth".
 */
module Triads {
  import opened Wrappers
  import opened Text
  import opened Scales
  import opened Intervals

  /** A `Triad`: the third and the fifth above a key. */
  datatype Triad = Triad(third: ValidInterval, fifth: ValidInterval)

  /** `Triad.from_root(root)`: the third and the fifth of `root`. Building the third
      validates the root first, so an unknown key raises its error. */
  function FromRoot(root: string): (r: Result<Triad, IntervalError>)
    ensures r.Ok? <==> root in MajorScales
    ensures r.Err? ==> r.error == UnknownRoot(root)
    ensures r.Ok? ==> r.value.third == Interval(root, 3, "") && r.value.fifth == Interval(root, 5, "")
  {
    match Create(root, 3, "")
    case Err(e) => Err(e)
    case Ok(third) =>
      match Create(root, 5, "")
      case Err(e) => Err(e)
      case Ok(fifth) => Ok(Triad(third, fifth))
  }

  /** `root`: the key the third stands on. */
  function Root(t: Triad): string
  {
    t.third.root
  }

  /** `prompt_msg`: the key, then " maj". */
  function PromptMsg(t: Triad): string
  {
    Root(t) + " maj"
  }

  /** `__repr__`: the key, the third and the fifth, separated by commas. */
  function Repr(t: Triad): string
  {
    Root(t) + "," + Render(t.third) + "," + Render(t.fifth)
  }

  /** `__eq__` between two triads: equal thirds and equal fifths (against any other
      kind of question it is False, which the Questions module states). */
  function Equals(a: Triad, b: Triad): (r: bool)
    ensures r <==> a == b
  {
    Intervals.Equals(a.third, b.third) && Intervals.Equals(a.fifth, b.fifth)
  }

  /** A `TriadAnswer`: the triad asked and the user's text. */
  datatype TriadAnswer = TriadAnswer(triad: Triad, userAnswer: string)

  /** `is_correct`: the text is the repr exactly, with no "##" rewriting. */
  predicate IsCorrect(a: TriadAnswer)
  {
    Repr(a.triad) == a.userAnswer
  }

  /** `__repr__` of the answer. */
  function AnswerRepr(a: TriadAnswer): string
  {
    "question " + Root(a.triad) + ", user answer " + a.userAnswer + " correct answer " + Repr(a.triad)
  }

  /** The triad of a key is spelled from its scale: the key, the third entry and the
      fifth entry of the table row. */
  lemma FromRootRepr(root: string)
    requires root in MajorScales
    ensures Repr(FromRoot(root).value) ==
            root + "," + MajorScales[root][2] + "," + MajorScales[root][4]
  {
    var t := FromRoot(root).value;
    RenderNatural(t.third);
    RenderNatural(t.fifth);
  }

  /** A key name never contains a comma, so the repr of a key's triad begins with
      exactly that key. */
  lemma FromRootReprField(root: string)
    requires root in MajorScales
    ensures FirstField(Repr(FromRoot(root).value), ',') == root
  {
    var t := FromRoot(root).value;
    ScaleNote(root, 0);
    KeyIsTonic(root);
    assert ',' !in root;
    assert Repr(t) == root + [','] + (Render(t.third) + "," + Render(t.fifth));
    FirstFieldOf(root, ',', Render(t.third) + "," + Render(t.fifth));
  }

  /** The answer for a key's triad is accepted exactly when it spells that key's
      triad: the repr of any other key's triad is refused. */
  lemma AnswerIdentifiesKey(root: string, other: string)
    requires root in MajorScales && other in MajorScales
    ensures IsCorrect(TriadAnswer(FromRoot(root).value, Repr(FromRoot(other).value))) <==> root == other
  {
    FromRootReprField(root);
    FromRootReprField(other);
  }

  /** The prompt names the key, which fixes the triad. */
  lemma PromptDeterminesTriad(root: string, other: string)
    requires root in MajorScales && other in MajorScales
    requires PromptMsg(FromRoot(root).value) == PromptMsg(FromRoot(other).value)
    ensures FromRoot(root) == FromRoot(other)
  {
    assert root + " maj" == other + " maj";
    assert |root| == |other|;
    assert root == (root + " maj")[..|root|];
    assert other == (other + " maj")[..|other|];
  }

  /** The tests' C major triad. */
  lemma CMajorExample()
    ensures FromRoot("C").Ok? && Repr(FromRoot("C").value) == "C,E,G"
  {
    FromRootRepr("C");
    assert MajorScales["C"][2] == "E" && MajorScales["C"][4] == "G";
  }

  /** The tests' comparison of the C and D triads. */
  lemma DistinctTriadsExample()
    ensures FromRoot("C").Ok? && FromRoot("D").Ok?
    ensures FromRoot("C").value == Triad(Interval("C", 3, ""), Interval("C", 5, ""))
    ensures !Equals(FromRoot("C").value, FromRoot("D").value)
  {
  }

  /** The tests' answers to the C major triad. */
  lemma TriadAnswerExamples()
    ensures FromRoot("C").Ok?
    ensures IsCorrect(TriadAnswer(FromRoot("C").value, "C,E,G"))
    ensures !IsCorrect(TriadAnswer(FromRoot("C").value, "D,E,G"))
  {
    CMajorExample();
    assert "C,E,G" != "D,E,G" by { assert "C,E,G"[0] != "D,E,G"[0]; }
  }

  /** The report line of an answer to a key's triad names the key twice: as the
      question and at the head of the correct answer read off its scale. */
  lemma KeyAnswerRepr(root: string, user: string)
    requires root in MajorScales
    ensures AnswerRepr(TriadAnswer(FromRoot(root).value, user)) ==
            "question " + root + ", user answer " + user + " correct answer " +
            root + "," + MajorScales[root][2] + "," + MajorScales[root][4]
  {
    FromRootRepr(root);
  }
}
