/**
 * interval_training/chord3.py: a copy of the triad question under another name; a
 * `Chord3` is asked by its key and answered as "root,third,fifth", like a `Triad`,
 * but is a different kind of question.
 */
module Chords3 {
  import opened Wrappers
  import opened Text
  import opened Scales
  import opened Intervals
  import Triads

  /** A `Chord3`: the third and the fifth above a key. */
  datatype Chord3 = Chord3(third: ValidInterval, fifth: ValidInterval)

  /** `Chord3.from_root(root)`: the third and the fifth of `root`. Building the third
      validates the root first, so an unknown key raises its error. */
  function FromRoot(root: string): (r: Result<Chord3, IntervalError>)
    ensures r.Ok? <==> root in MajorScales
    ensures r.Err? ==> r.error == UnknownRoot(root)
    ensures r.Ok? ==> r.value.third == Interval(root, 3, "") && r.value.fifth == Interval(root, 5, "")
  {
    match Create(root, 3, "")
    case Err(e) => Err(e)
    case Ok(third) =>
      match Create(root, 5, "")
      case Err(e) => Err(e)
      case Ok(fifth) => Ok(Chord3(third, fifth))
  }

  /** `root`: the key the third stands on. */
  function Root(t: Chord3): string
  {
    t.third.root
  }

  /** `prompt_msg`: the key, then " maj". */
  function PromptMsg(t: Chord3): string
  {
    Root(t) + " maj"
  }

  /** `__repr__`: the key, the third and the fifth, separated by commas. */
  function Repr(t: Chord3): string
  {
    Root(t) + "," + Render(t.third) + "," + Render(t.fifth)
  }

  /** `__eq__` between two chords: equal thirds and equal fifths (against any other
      kind of question it is False, which the Questions module states). */
  function Equals(a: Chord3, b: Chord3): (r: bool)
    ensures r <==> a == b
  {
    Intervals.Equals(a.third, b.third) && Intervals.Equals(a.fifth, b.fifth)
  }

  /** A `Chord3Answer`: the chord asked and the user's text. */
  datatype Chord3Answer = Chord3Answer(chord: Chord3, userAnswer: string)

  /** `is_correct`: the text is the repr exactly, with no "##" rewriting. */
  predicate IsCorrect(a: Chord3Answer)
  {
    Repr(a.chord) == a.userAnswer
  }

  /** `__repr__` of the answer. */
  function AnswerRepr(a: Chord3Answer): string
  {
    "question " + Root(a.chord) + ", user answer " + a.userAnswer + " correct answer " + Repr(a.chord)
  }

  /** The chord of a key is spelled from its scale: the key, the third entry and the
      fifth entry of the table row. */
  lemma FromRootRepr(root: string)
    requires root in MajorScales
    ensures Repr(FromRoot(root).value) ==
            root + "," + MajorScales[root][2] + "," + MajorScales[root][4]
  {
    var t := FromRoot(root).value;
    RenderNatural(t.third);
    RenderNatural(t.fifth);
  }

  /** A key name never contains a comma, so the repr of a key's chord begins with
      exactly that key. */
  lemma FromRootReprField(root: string)
    requires root in MajorScales
    ensures FirstField(Repr(FromRoot(root).value), ',') == root
  {
    var t := FromRoot(root).value;
    ScaleNote(root, 0);
    KeyIsTonic(root);
    assert ',' !in root;
    assert Repr(t) == root + [','] + (Render(t.third) + "," + Render(t.fifth));
    FirstFieldOf(root, ',', Render(t.third) + "," + Render(t.fifth));
  }

  /** The answer for a key's chord is accepted exactly when it spells that key's
      chord: the repr of any other key's chord is refused. */
  lemma AnswerIdentifiesKey(root: string, other: string)
    requires root in MajorScales && other in MajorScales
    ensures IsCorrect(Chord3Answer(FromRoot(root).value, Repr(FromRoot(other).value))) <==> root == other
  {
    FromRootReprField(root);
    FromRootReprField(other);
  }

  /** The prompt names the key, which fixes the chord. */
  lemma PromptDeterminesChord3(root: string, other: string)
    requires root in MajorScales && other in MajorScales
    requires PromptMsg(FromRoot(root).value) == PromptMsg(FromRoot(other).value)
    ensures FromRoot(root) == FromRoot(other)
  {
    assert root + " maj" == other + " maj";
    assert |root| == |other|;
    assert root == (root + " maj")[..|root|];
    assert other == (other + " maj")[..|other|];
  }

  /** The tests' C major chord. */
  lemma CMajorExample()
    ensures FromRoot("C").Ok? && Repr(FromRoot("C").value) == "C,E,G"
  {
    FromRootRepr("C");
    assert MajorScales["C"][2] == "E" && MajorScales["C"][4] == "G";
  }

  /** The tests' comparison of the C and D chords. */
  lemma DistinctChordsExample()
    ensures FromRoot("C").Ok? && FromRoot("D").Ok?
    ensures FromRoot("C").value == Chord3(Interval("C", 3, ""), Interval("C", 5, ""))
    ensures !Equals(FromRoot("C").value, FromRoot("D").value)
  {
  }

  /** The tests' answers to the C major chord. */
  lemma Chord3AnswerExamples()
    ensures FromRoot("C").Ok?
    ensures IsCorrect(Chord3Answer(FromRoot("C").value, "C,E,G"))
    ensures !IsCorrect(Chord3Answer(FromRoot("C").value, "D,E,G"))
  {
    CMajorExample();
    assert "C,E,G" != "D,E,G" by { assert "C,E,G"[0] != "D,E,G"[0]; }
  }

  /** The report line of an answer to a key's chord names the key twice: as the
      question and at the head of the correct answer read off its scale. */
  lemma KeyAnswerRepr(root: string, user: string)
    requires root in MajorScales
    ensures AnswerRepr(Chord3Answer(FromRoot(root).value, user)) ==
            "question " + root + ", user answer " + user + " correct answer " +
            root + "," + MajorScales[root][2] + "," + MajorScales[root][4]
  {
    FromRootRepr(root);
  }

  /** The copy agrees with the triad: the same key gives the same prompt, the same repr
      and the same verdict on every answer. */
  lemma AgreesWithTriad(root: string, user: string)
    requires root in MajorScales
    ensures Triads.FromRoot(root).Ok? && FromRoot(root).Ok?
    ensures PromptMsg(FromRoot(root).value) == Triads.PromptMsg(Triads.FromRoot(root).value)
    ensures Repr(FromRoot(root).value) == Triads.Repr(Triads.FromRoot(root).value)
    ensures IsCorrect(Chord3Answer(FromRoot(root).value, user)) <==>
            Triads.IsCorrect(Triads.TriadAnswer(Triads.FromRoot(root).value, user))
  {
    FromRootRepr(root);
    Triads.FromRootRepr(root);
  }
}
