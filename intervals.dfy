/**
 * The interval-spelling engine of interval_training/interval.py: an `Interval`
 * is a major key, a scale degree and an alteration; it is validated when built
 * and renders as the correctly spelled note name.
 */
module Intervals {
  import opened Wrappers
  import opened Text
  import opened Scales

  /** `Interval._intervals`: the accepted degrees, compound ones included. */
  const Degrees: seq<int> := [1, 2, 3, 4, 5, 6, 7, 8, 9, 11, 13]

  /** `Interval._alterations`: none, flat, sharp, double flat, double sharp. */
  const Alterations: seq<string> := ["", "b", "#", "bb", "x"]

  datatype Interval = Interval(root: string, degree: int, alteration: string)

  /** The four `ValueError`s construction can raise, in the order they are checked. */
  datatype IntervalError =
    | UnknownRoot(root: string)
    | InvalidDegree(degree: int)
    | InvalidAlteration(alteration: string)
    | Unspellable(spelling: string)

  /** The text of the raised `ValueError`. */
  function Message(e: IntervalError): string
  {
    match e
    case UnknownRoot(_) =>
      "Provide only tunes from circle of fifth: dict_keys(['C', 'G', 'F', 'D', 'Bb', 'A', 'Eb', 'E', 'Ab', 'B', 'Db', 'F#', 'Gb', 'Cb', 'C#'])"
    case InvalidDegree(d) =>
      "Invalid interval provided " + IntToString(d) + ", accepted [1, 2, 3, 4, 5, 6, 7, 8, 9, 11, 13]"
    case InvalidAlteration(a) =>
      "Invalid alteration provided " + a + ", accepted ['', 'b', '#', 'bb', 'x']"
    case Unspellable(check) =>
      "Invalid interval " + check
  }

  /** Python's `xs[i]` position for `-len <= i < len`: a negative index counts from the end. */
  function PythonIndex(i: int, len: nat): (k: nat)
    requires -(len as int) <= i < len
    ensures k < len && (k == i || k == len + i)
  {
    if i < 0 then len + i else i
  }

  /** `_get_major_interval`: the scale entry at `degree % 7 - 1`. Python's `%` with a
      positive divisor agrees with Dafny's, so the index lies in -1..5, and -1 (degree 7)
      selects the seventh entry. */
  function MajorInterval(root: string, degree: int): (note: string)
    requires root in MajorScales
    ensures IsNoteName(note)
    ensures 1 <= degree ==> note == MajorScales[root][(degree - 1) % 7]
  {
    var k := PythonIndex(degree % 7 - 1, 7);
    ScaleNote(root, k);
    if 1 <= degree then DegreeIndex(degree); MajorScales[root][k] else MajorScales[root][k]
  }

  /** The spellability test of `_validate_interval`: at most two lowercase `b`, and at
      most two `#` once every `x` is written `##`. */
  predicate Spellable(check: string)
  {
    !(CountChar(check, 'b') > 2 || CountChar(ReplaceAll(check, "x", "##"), '#') > 2)
  }

  /** What `__init__` accepts. The spelling is checked only for "bb" and "x". */
  predicate Valid(i: Interval)
  {
    && i.root in MajorScales
    && i.degree in Degrees
    && i.alteration in Alterations
    && ((i.alteration == "bb" || i.alteration == "x") ==>
          Spellable(MajorInterval(i.root, i.degree) + i.alteration))
  }

  /** An `Interval` object: one that construction let through. */
  type ValidInterval = i: Interval | Valid(i) witness Interval("C", 1, "")

  /** `Interval(root, interval, alteration)`: the validation chain of `_validate_interval`;
      the first failing check decides the error. */
  function Create(root: string, degree: int, alteration: string): (r: Result<ValidInterval, IntervalError>)
    ensures r.Ok? <==> Valid(Interval(root, degree, alteration))
    ensures r.Ok? ==> r.value == Interval(root, degree, alteration)
    ensures root !in MajorScales ==> r == Err(UnknownRoot(root))
    ensures root in MajorScales && degree !in Degrees ==> r == Err(InvalidDegree(degree))
    ensures root in MajorScales && degree in Degrees && alteration !in Alterations ==>
              r == Err(InvalidAlteration(alteration))
    ensures root in MajorScales && degree in Degrees && alteration in Alterations &&
            !Valid(Interval(root, degree, alteration)) ==>
              r == Err(Unspellable(MajorInterval(root, degree) + alteration))
    ensures r.Err? && r.error.Unspellable? ==>
              (alteration == "bb" || alteration == "x") &&
              r.error.spelling == MajorInterval(root, degree) + alteration
  {
    if root !in MajorScales then Err(UnknownRoot(root))
    else if degree !in Degrees then Err(InvalidDegree(degree))
    else if alteration !in Alterations then Err(InvalidAlteration(alteration))
    else if (alteration == "bb" || alteration == "x") &&
            !Spellable(MajorInterval(root, degree) + alteration) then
      Err(Unspellable(MajorInterval(root, degree) + alteration))
    else Ok(Interval(root, degree, alteration))
  }

  /** The chain of `str.replace` calls of `__repr__`, in order. */
  function Normalize(s: string): string
  {
    ReplaceAll(ReplaceAll(ReplaceAll(ReplaceAll(ReplaceAll(s, "##", "x"), "#b", ""), "b#", ""), "bx", "#"), "xb", "#")
  }

  /** `__repr__`: the diatonic note with the alteration appended, then normalised. */
  function Render(i: ValidInterval): string
  {
    Normalize(MajorInterval(i.root, i.degree) + i.alteration)
  }

  /** `str(Interval(root, degree, alteration))`, or the error construction raises. */
  function Spell(root: string, degree: int, alteration: string): Result<string, IntervalError>
  {
    match Create(root, degree, alteration)
    case Ok(i) => Ok(Render(i))
    case Err(e) => Err(e)
  }

  /** `prompt_msg`: the degree and the alteration, then " th". */
  function PromptMsg(i: Interval): string
  {
    IntToString(i.degree) + i.alteration + " th"
  }

  /** `__eq__` between two intervals (against any other kind of question it is False,
      which the Questions module states). */
  function Equals(a: Interval, b: Interval): (r: bool)
    ensures r <==> a == b
  {
    a.root == b.root && a.degree == b.degree && a.alteration == b.alteration
  }

  // ---------------------------------------------------------------------------
  // Reference semantics: an accidental is a signed number of semitones.

  /** The semitone offset an accidental token stands for. */
  function Offset(a: string): int
  {
    if a == "b" then -1
    else if a == "#" then 1
    else if a == "bb" then -2
    else if a == "x" then 2
    else 0
  }

  /** The canonical token for an offset of at most two semitones either way. */
  function AccidentalText(n: int): (a: string)
    requires -2 <= n <= 2
    ensures a in Alterations && Offset(a) == n
  {
    if n == -2 then "bb" else if n == -1 then "b" else if n == 0 then "" else if n == 1 then "#" else "x"
  }

  /** The total offset of a diatonic accidental combined with an alteration. */
  function NetOffset(base: string, alteration: string): int
    requires |base| >= 1
  {
    Offset(base[1..]) + Offset(alteration)
  }

  /** `Normalize` written with the character-level replacements. */
  function NormalizeChars(s: string): string
  {
    ReplacePair(ReplacePair(ReplacePair(ReplacePair(ReplacePair(s, '#', '#', "x"), '#', 'b', ""), 'b', '#', ""), 'b', 'x', "#"), 'x', 'b', "#")
  }

  lemma NormalizeByChars(s: string)
    ensures Normalize(s) == NormalizeChars(s)
  {
    var s1 := ReplaceAll(s, "##", "x");
    ReplacePairIsReplaceAll(s, '#', '#', "x");
    var s2 := ReplaceAll(s1, "#b", "");
    ReplacePairIsReplaceAll(s1, '#', 'b', "");
    var s3 := ReplaceAll(s2, "b#", "");
    ReplacePairIsReplaceAll(s2, 'b', '#', "");
    var s4 := ReplaceAll(s3, "bx", "#");
    ReplacePairIsReplaceAll(s3, 'b', 'x', "#");
    ReplacePairIsReplaceAll(s4, 'x', 'b', "#");
  }

  /** `Spellable` written with the character-level replacement. */
  predicate SpellableChars(s: string)
  {
    !(CountChar(s, 'b') > 2 || CountChar(ReplaceChar(s, 'x', "##"), '#') > 2)
  }

  lemma SpellableByChars(s: string)
    ensures Spellable(s) == SpellableChars(s)
  {
    ReplaceCharIsReplaceAll(s, 'x', "##");
  }

  lemma NormalizeCons(c: char, t: string)
    requires c != '#' && c != 'b' && c != 'x'
    ensures NormalizeChars([c] + t) == [c] + NormalizeChars(t)
  {
    var s1 := ReplacePair(t, '#', '#', "x");
    ReplacePairCons(c, t, '#', '#', "x");
    var s2 := ReplacePair(s1, '#', 'b', "");
    ReplacePairCons(c, s1, '#', 'b', "");
    var s3 := ReplacePair(s2, 'b', '#', "");
    ReplacePairCons(c, s2, 'b', '#', "");
    var s4 := ReplacePair(s3, 'b', 'x', "#");
    ReplacePairCons(c, s3, 'b', 'x', "#");
    ReplacePairCons(c, s4, 'x', 'b', "#");
  }

  lemma SpellableCons(c: char, t: string)
    requires c != '#' && c != 'b' && c != 'x'
    ensures SpellableChars([c] + t) == SpellableChars(t)
  {
    CountCharCons(c, t, 'b');
    ReplaceCharCons(c, t, 'x', "##");
    CountCharCons(c, ReplaceChar(t, 'x', "##"), '#');
  }

  /** The test passes exactly when the net offset is within two semitones, and
      normalisation yields that offset's token. */
  ghost predicate PairSpelled(acc: string, alteration: string)
  {
    && (SpellableChars(acc + alteration) <==> -2 <= Offset(acc) + Offset(alteration) <= 2)
    && (-2 <= Offset(acc) + Offset(alteration) <= 2 ==>
          NormalizeChars(acc + alteration) == AccidentalText(Offset(acc) + Offset(alteration)))
  }

  // Each of the fifteen combinations is a lemma of its own, grouped below by the
  // diatonic accidental. Proved together in one lemma, the five sharp cases would cost
  // more than the resource limit of 2000000 allows one proof.

  // The five alterations of a diatonic natural, worked out one by one.

  lemma NaturalThenNatural()
    ensures PairSpelled("", "")
  {
    assert "" + "" == "";
    assert SpellableChars("");
    assert NormalizeChars("") == "";
  }

  lemma NaturalThenFlat()
    ensures PairSpelled("", "b")
  {
    assert "" + "b" == "b";
    assert SpellableChars("b");
    assert NormalizeChars("b") == "b";
  }

  lemma NaturalThenSharp()
    ensures PairSpelled("", "#")
  {
    assert "" + "#" == "#";
    assert SpellableChars("#");
    assert NormalizeChars("#") == "#";
  }

  lemma NaturalThenDoubleFlat()
    ensures PairSpelled("", "bb")
  {
    assert "" + "bb" == "bb";
    assert SpellableChars("bb");
    assert NormalizeChars("bb") == "bb";
  }

  lemma NaturalThenDoubleSharp()
    ensures PairSpelled("", "x")
  {
    assert "" + "x" == "x";
    assert SpellableChars("x");
    assert NormalizeChars("x") == "x";
  }

  lemma NaturalPairs(alteration: string)
    requires alteration in Alterations
    ensures PairSpelled("", alteration)
  {
    if alteration == "" { NaturalThenNatural(); }
    else if alteration == "b" { NaturalThenFlat(); }
    else if alteration == "#" { NaturalThenSharp(); }
    else if alteration == "bb" { NaturalThenDoubleFlat(); }
    else { NaturalThenDoubleSharp(); }
  }

  // The five alterations of a diatonic flat, worked out one by one.

  lemma FlatThenNatural()
    ensures PairSpelled("b", "")
  {
    assert "b" + "" == "b";
    assert SpellableChars("b");
    assert NormalizeChars("b") == "b";
  }

  lemma FlatThenFlat()
    ensures PairSpelled("b", "b")
  {
    assert "b" + "b" == "bb";
    assert SpellableChars("bb");
    assert NormalizeChars("bb") == "bb";
  }

  lemma FlatThenSharp()
    ensures PairSpelled("b", "#")
  {
    assert "b" + "#" == "b#";
    assert SpellableChars("b#");
    assert NormalizeChars("b#") == "";
  }

  lemma FlatThenDoubleFlat()
    ensures PairSpelled("b", "bb")
  {
    assert "b" + "bb" == "bbb";
    assert CountChar("bbb", 'b') > 2 || CountChar(ReplaceChar("bbb", 'x', "##"), '#') > 2;
  }

  lemma FlatThenDoubleSharp()
    ensures PairSpelled("b", "x")
  {
    assert "b" + "x" == "bx";
    assert SpellableChars("bx");
    assert NormalizeChars("bx") == "#";
  }

  lemma FlatPairs(alteration: string)
    requires alteration in Alterations
    ensures PairSpelled("b", alteration)
  {
    if alteration == "" { FlatThenNatural(); }
    else if alteration == "b" { FlatThenFlat(); }
    else if alteration == "#" { FlatThenSharp(); }
    else if alteration == "bb" { FlatThenDoubleFlat(); }
    else { FlatThenDoubleSharp(); }
  }

  // The five alterations of a diatonic sharp, worked out one by one.

  lemma SharpThenNatural()
    ensures PairSpelled("#", "")
  {
    assert "#" + "" == "#";
    assert SpellableChars("#");
    assert NormalizeChars("#") == "#";
  }

  lemma SharpThenFlat()
    ensures PairSpelled("#", "b")
  {
    assert "#" + "b" == "#b";
    assert SpellableChars("#b");
    assert NormalizeChars("#b") == "" by {
      assert ReplacePair("#b", '#', '#', "x") == "#b";
      assert ReplacePair("#b", '#', 'b', "") == "";
    }
  }

  lemma SharpThenSharp()
    ensures PairSpelled("#", "#")
  {
    assert "#" + "#" == "##";
    assert SpellableChars("##");
    assert NormalizeChars("##") == "x";
  }

  lemma SharpThenDoubleFlat()
    ensures PairSpelled("#", "bb")
  {
    assert "#" + "bb" == "#bb";
    assert SpellableChars("#bb");
    assert NormalizeChars("#bb") == "b" by {
      assert ReplacePair("#bb", '#', '#', "x") == "#bb";
      assert ReplacePair("#bb", '#', 'b', "") == "b";
    }
  }

  lemma SharpThenDoubleSharp()
    ensures PairSpelled("#", "x")
  {
    assert "#" + "x" == "#x";
    assert CountChar("#x", 'b') > 2 || CountChar(ReplaceChar("#x", 'x', "##"), '#') > 2;
  }

  lemma SharpPairs(alteration: string)
    requires alteration in Alterations
    ensures PairSpelled("#", alteration)
  {
    if alteration == "" { SharpThenNatural(); }
    else if alteration == "b" { SharpThenFlat(); }
    else if alteration == "#" { SharpThenSharp(); }
    else if alteration == "bb" { SharpThenDoubleFlat(); }
    else { SharpThenDoubleSharp(); }
  }

  /** The fifteen combinations of a diatonic accidental with an alteration, worked out. */
  lemma AccidentalPairs(acc: string, alteration: string)
    requires IsScaleAccidental(acc) && alteration in Alterations
    ensures PairSpelled(acc, alteration)
  {
    if acc == "" { NaturalPairs(alteration); }
    else if acc == "b" { FlatPairs(alteration); }
    else { SharpPairs(alteration); }
  }

  /** Spelling a note name with an alteration: the check rejects exactly the combinations
      beyond two semitones, and the rendering is the letter with the net accidental. */
  lemma {:induction false} NoteSpelling(base: string, alteration: string)
    requires IsNoteName(base) && alteration in Alterations
    ensures Spellable(base + alteration) <==> -2 <= NetOffset(base, alteration) <= 2
    ensures -2 <= NetOffset(base, alteration) <= 2 ==>
              Normalize(base + alteration) == [base[0]] + AccidentalText(NetOffset(base, alteration))
  {
    NoteNameParts(base);
    var acc := base[1..];
    assert base + alteration == [base[0]] + (acc + alteration);
    NormalizeByChars(base + alteration);
    SpellableByChars(base + alteration);
    NormalizeCons(base[0], acc + alteration);
    SpellableCons(base[0], acc + alteration);
    AccidentalPairs(acc, alteration);
  }

  /** Every entry of every scale is a note name. */
  lemma ScaleNote(root: string, k: nat)
    requires root in MajorScales && k < 7
    ensures IsNoteName(MajorScales[root][k])
  {
    TableSpelling();
    assert WellSpelledScale(root, MajorScales[root]);
    if k == 0 {} else if k == 1 {} else if k == 2 {} else if k == 3 {}
    else if k == 4 {} else if k == 5 {} else {}
  }

  /** Construction from valid parts succeeds exactly when the diatonic accidental and the
      alteration together stay within two semitones. */
  lemma CreateSucceedsIff(root: string, degree: int, alteration: string)
    requires root in MajorScales && degree in Degrees && alteration in Alterations
    ensures Create(root, degree, alteration).Ok? <==>
              -2 <= NetOffset(MajorInterval(root, degree), alteration) <= 2
  {
    var base := MajorInterval(root, degree);
    NoteSpelling(base, alteration);
    NoteNameParts(base);
    if alteration == "" || alteration == "b" || alteration == "#" {
      assert -1 <= Offset(base[1..]) <= 1;
    }
  }

  /** Every interval renders as its diatonic letter followed by the token for the net
      offset, which is within two semitones. */
  lemma RenderByOffset(i: ValidInterval)
    ensures -2 <= NetOffset(MajorInterval(i.root, i.degree), i.alteration) <= 2
    ensures Render(i) == [MajorInterval(i.root, i.degree)[0]] +
                         AccidentalText(NetOffset(MajorInterval(i.root, i.degree), i.alteration))
  {
    CreateSucceedsIff(i.root, i.degree, i.alteration);
    NoteSpelling(MajorInterval(i.root, i.degree), i.alteration);
  }

  /** Every rendering is the diatonic letter followed by one of "", "b", "#", "bb", "x". */
  lemma RenderShape(i: ValidInterval)
    ensures |Render(i)| >= 1 && Render(i)[0] == MajorInterval(i.root, i.degree)[0]
    ensures IsLetter(Render(i)[0]) && Render(i)[1..] in Alterations
  {
    RenderByOffset(i);
    var base := MajorInterval(i.root, i.degree);
    var a := AccidentalText(NetOffset(base, i.alteration));
    assert Render(i) == [base[0]] + a;
    assert Render(i)[1..] == a;
  }

  /** Without an alteration the rendering is the scale entry itself. */
  lemma RenderNatural(i: ValidInterval)
    requires i.alteration == ""
    ensures Render(i) == MajorInterval(i.root, i.degree)
  {
    RenderByOffset(i);
    var base := MajorInterval(i.root, i.degree);
    NoteNameParts(base);
  }

  /** Python's index `degree % 7 - 1` is the degree's position counted modulo seven:
      degree 7 (index -1) is the seventh entry and 8, 9, 11, 13 fall on 1, 2, 4, 6. */
  lemma DegreeIndex(degree: int)
    requires degree >= 1
    ensures PythonIndex(degree % 7 - 1, 7) == (degree - 1) % 7
  {
  }

  /** A compound degree is spelled like the simple degree an octave below: the same
      text, or the same error. */
  lemma CompoundDegree(root: string, degree: int, alteration: string)
    requires degree == 8 || degree == 9 || degree == 11 || degree == 13
    ensures Spell(root, degree, alteration) == Spell(root, degree - 7, alteration)
  {
    if root in MajorScales {
      DegreeIndex(degree);
      DegreeIndex(degree - 7);
      assert MajorInterval(root, degree) == MajorInterval(root, degree - 7);
    }
  }

  /** Equality is by fields, not by rendering: the ninth and the second of C both render
      "D" and still differ. */
  lemma EqualityIsNotRendering()
    ensures Spell("C", 9, "") == Ok("D") && Spell("C", 2, "") == Ok("D")
    ensures !Equals(Interval("C", 9, ""), Interval("C", 2, ""))
  {
    RenderNatural(Interval("C", 9, ""));
    RenderNatural(Interval("C", 2, ""));
  }

  /** `str(Interval(root, degree, alteration))` for valid parts: the letter with the net
      accidental when that is within two semitones, otherwise the unspellable error
      naming the diatonic note with the alteration appended. */
  lemma SpellByOffset(root: string, degree: int, alteration: string)
    requires root in MajorScales && degree in Degrees && alteration in Alterations
    ensures var base := MajorInterval(root, degree);
            var n := NetOffset(base, alteration);
            && (-2 <= n <= 2 ==> Spell(root, degree, alteration) == Ok([base[0]] + AccidentalText(n)))
            && (!(-2 <= n <= 2) ==> Spell(root, degree, alteration) == Err(Unspellable(base + alteration)))
  {
    CreateSucceedsIff(root, degree, alteration);
    if Create(root, degree, alteration).Ok? {
      RenderByOffset(Interval(root, degree, alteration));
    }
  }

  // ---------------------------------------------------------------------------
  // `Interval.random`: the two random choices become parameters.

  /** A position in `Degrees` (what `random.choices(cls._intervals)` draws). */
  type DegreePick = k: nat | k < 11

  /** A position in `Alterations` (what the weighted draw picks; the weights only shape
      the distribution and are not modelled). */
  type AlterationPick = k: nat | k < 5

  /** `Interval.random(root, exclude_alterations)` for given draws: the drawn degree, and
      the drawn alteration unless alterations are excluded. It raises what `__init__`
      raises. */
  function Random(root: string, excludeAlterations: bool, degreePick: DegreePick,
                  alterationPick: AlterationPick): (r: Result<ValidInterval, IntervalError>)
    ensures r.Ok? ==> r.value.root == root && r.value.degree in Degrees && r.value.alteration in Alterations
    ensures excludeAlterations ==> (r.Ok? <==> root in MajorScales)
    ensures excludeAlterations && r.Ok? ==> r.value.alteration == ""
    ensures root !in MajorScales ==> r == Err(UnknownRoot(root))
    ensures r.Err? ==> r.error.UnknownRoot? || r.error.Unspellable?
  {
    Create(root, Degrees[degreePick], if excludeAlterations then "" else Alterations[alterationPick])
  }

  /** Every interval of a key is one `random` can produce, and every one without an
      alteration is one it can produce when alterations are excluded. */
  lemma RandomReachesAll(i: ValidInterval)
    ensures exists d: DegreePick, a: AlterationPick :: Random(i.root, false, d, a) == Ok(i)
    ensures i.alteration == "" ==> exists d: DegreePick :: Random(i.root, true, d, 0) == Ok(i)
  {
    var d :| 0 <= d < 11 && Degrees[d] == i.degree;
    var a :| 0 <= a < 5 && Alterations[a] == i.alteration;
    assert Random(i.root, false, d, a) == Ok(i);
    if i.alteration == "" {
      assert Random(i.root, true, d, 0) == Ok(i);
    }
  }

  // ---------------------------------------------------------------------------
  // The prompt and its inverse.

  /** Reads a prompt back: the leading decimal digits are the degree, and what lies
      between them and the closing " th" is the alteration. */
  function ParsePrompt(s: string): (r: Option<(int, string)>)
    ensures r.Some? ==> r.value.0 >= 0
  {
    var ds := LeadingDigits(s);
    var rest := s[|ds|..];
    if |ds| == 0 || |rest| < 3 || rest[|rest| - 3..] != " th" then None
    else Some((DigitsValue(ds), rest[..|rest| - 3]))
  }

  /** A degree's digits, then a text that does not start with a digit, then " th" read
      back as that degree and that text. */
  lemma PromptParts(degree: nat, alteration: string)
    requires |alteration| == 0 || !IsDigit(alteration[0])
    ensures ParsePrompt(NatToString(degree) + alteration + " th") == Some((degree, alteration))
  {
    var ds := NatToString(degree);
    var rest := alteration + " th";
    assert ds + alteration + " th" == ds + rest;
    assert rest[0] == if alteration == "" then ' ' else alteration[0];
    LeadingDigitsOf(ds, rest);
    assert (ds + rest)[|ds|..] == rest;
    assert rest[|rest| - 3..] == " th";
    assert rest[..|rest| - 3] == alteration;
    NatToStringRoundTrip(degree);
  }

  /** The prompt of an interval reads back as its degree and alteration. */
  lemma PromptRoundTrip(i: ValidInterval)
    ensures ParsePrompt(PromptMsg(i)) == Some((i.degree, i.alteration))
  {
    assert i.degree >= 1;
    assert |i.alteration| == 0 || !IsDigit(i.alteration[0]);
    PromptParts(i.degree, i.alteration);
  }

  /** Two intervals asked with the same prompt have the same degree and alteration: the
      prompt leaves out only the key. */
  lemma PromptDeterminesQuestion(a: ValidInterval, b: ValidInterval)
    requires PromptMsg(a) == PromptMsg(b)
    ensures a.degree == b.degree && a.alteration == b.alteration
  {
    PromptRoundTrip(a);
    PromptRoundTrip(b);
  }

  // ---------------------------------------------------------------------------
  // `IntervalAnswer`.

  datatype IntervalAnswer = IntervalAnswer(interval: ValidInterval, userAnswer: string)

  /** `is_correct`: the rendering equals the user's text once "##" is read as "x". */
  predicate IsCorrect(a: IntervalAnswer)
  {
    Render(a.interval) == ReplaceAll(a.userAnswer, "##", "x")
  }

  /** `__repr__` of the answer: the question's prompt, the user's text, the rendering. */
  function AnswerRepr(a: IntervalAnswer): string
  {
    "question " + PromptMsg(a.interval) + ", user answer " + a.userAnswer + " - correct answer " + Render(a.interval)
  }

  /** The answer text of any interval question: the prompt's degree digits and
      alteration, the user's text, then the diatonic letter with the net accidental. */
  lemma IntervalAnswerRepr(i: ValidInterval, user: string)
    ensures -2 <= NetOffset(MajorInterval(i.root, i.degree), i.alteration) <= 2
    ensures AnswerRepr(IntervalAnswer(i, user)) ==
            "question " + NatToString(i.degree) + i.alteration + " th" + ", user answer " + user +
            " - correct answer " + ([MajorInterval(i.root, i.degree)[0]] +
            AccidentalText(NetOffset(MajorInterval(i.root, i.degree), i.alteration)))
  {
    RenderByOffset(i);
    assert i.degree >= 1;
    assert IntToString(i.degree) == NatToString(i.degree);
    AnswerTextRegrouped(NatToString(i.degree), i.alteration, user, Render(i));
  }

  /** The prompt's parts regrouped inside the answer text. */
  lemma AnswerTextRegrouped(n: string, alteration: string, user: string, rendering: string)
    ensures "question " + (n + alteration + " th") + ", user answer " + user + " - correct answer " + rendering ==
            "question " + n + alteration + " th" + ", user answer " + user + " - correct answer " + rendering
  {
  }

  /** A rendering never contains "##": it carries at most one sharp. */
  lemma RenderHasNoDoubleSharp(i: ValidInterval)
    ensures forall k: nat :: !OccursAt(Render(i), "##", k)
  {
    RenderShape(i);
    var s := Render(i);
    var tok := s[1..];
    assert tok in Alterations;
    forall k: nat ensures !OccursAt(s, "##", k) {
      if k + 2 <= |s| {
        if k == 0 {
          assert s[k..k + 2][0] == s[0];
        } else {
          assert tok == "bb";
          assert s[k..k + 2][1] == s[k + 1] == tok[k] == 'b';
        }
      }
    }
  }

  /** An answer without "##" is correct exactly when it is the rendering. */
  lemma AnswerCorrectIff(a: IntervalAnswer)
    requires forall k: nat :: !OccursAt(a.userAnswer, "##", k)
    ensures IsCorrect(a) <==> a.userAnswer == Render(a.interval)
  {
    ReplaceAllAbsent(a.userAnswer, "##", "x");
  }

  /** The rendering itself is always accepted. */
  lemma RenderingAccepted(i: ValidInterval)
    ensures IsCorrect(IntervalAnswer(i, Render(i)))
  {
    RenderHasNoDoubleSharp(i);
    AnswerCorrectIff(IntervalAnswer(i, Render(i)));
  }

  /** A double sharp may be typed as "##": the letter followed by "##" is accepted when
      the rendering is the letter followed by "x". */
  lemma SpelledOutDoubleSharpAccepted(i: ValidInterval)
    requires |Render(i)| == 2 && Render(i)[1] == 'x'
    ensures IsCorrect(IntervalAnswer(i, [Render(i)[0]] + "##"))
  {
    RenderShape(i);
    var c := Render(i)[0];
    var u := [c] + "##";
    assert u[..2] != "##" by { assert u[..2][0] == c; assert IsLetter(c); }
    assert u[1..] == "##";
    assert ReplaceAll(u, "##", "x") == [c] + ReplaceAll("##", "##", "x");
    assert ReplaceAll("##", "##", "x") == "x" + ReplaceAll("", "##", "x");
    assert Render(i) == [c] + "x";
  }

  /** One spelling worked out from the offset reference. */
  lemma SpellsAs(root: string, degree: int, alteration: string, base: string, expected: string)
    requires root in MajorScales && degree in Degrees && alteration in Alterations
    requires MajorInterval(root, degree) == base
    requires -2 <= NetOffset(base, alteration) <= 2
    requires expected == [base[0]] + AccidentalText(NetOffset(base, alteration))
    ensures Spell(root, degree, alteration) == Ok(expected)
  {
    SpellByOffset(root, degree, alteration);
  }

  /** The tests' spellings of the second degree of C major under the natural and single alterations. */
  lemma SpellingExamplesSecond()
    ensures Spell("C", 2, "") == Ok("D")
    ensures Spell("C", 2, "#") == Ok("D#")
    ensures Spell("C", 2, "b") == Ok("Db")
  {
    SpellsAs("C", 2, "", "D", "D");
    SpellsAs("C", 2, "#", "D", "D#");
    SpellsAs("C", 2, "b", "D", "Db");
  }

  /** The tests' double flat on the second degree of C major. */
  lemma SpellingExampleDoubleFlat()
    ensures Spell("C", 2, "bb") == Ok("Dbb")
  {
    SpellsAs("C", 2, "bb", "D", "Dbb");
  }

  /** The tests' double sharp on the second degree of C major. */
  lemma SpellingExampleDoubleSharp()
    ensures Spell("C", 2, "x") == Ok("Dx")
  {
    SpellsAs("C", 2, "x", "D", "Dx");
  }

  /** The tests' spellings of the compound degrees of C major. */
  lemma SpellingExamplesCompound()
    ensures Spell("C", 9, "") == Ok("D")
    ensures Spell("C", 11, "") == Ok("F")
    ensures Spell("C", 13, "") == Ok("A")
  {
    SpellsAs("C", 9, "", "D", "D");
    SpellsAs("C", 11, "", "F", "F");
    SpellsAs("C", 13, "", "A", "A");
  }

  /** The tests' spellings altering a diatonic F#: the sharp doubles, the flat cancels. */
  lemma SpellingExamplesSharpBase()
    ensures Spell("D", 3, "#") == Ok("Fx")
    ensures Spell("D", 3, "b") == Ok("F")
  {
    SpellsAs("D", 3, "#", "F#", "Fx");
    SpellsAs("D", 3, "b", "F#", "F");
  }

  /** The tests' spellings altering a diatonic flat: flats add up, a double sharp leaves one sharp. */
  lemma SpellingExamplesFlatBase()
    ensures Spell("Db", 5, "b") == Ok("Abb")
    ensures Spell("Cb", 4, "x") == Ok("F#")
  {
    SpellsAs("Db", 5, "b", "Ab", "Abb");
    SpellsAs("Cb", 4, "x", "Fb", "F#");
  }

  /** The tests' out-of-range degree. */
  lemma DegreeErrorExample()
    ensures Spell("C", 22, "") == Err(InvalidDegree(22))
  {
  }

  /** The tests' root outside the table. */
  lemma RootErrorExample()
    ensures Spell("G#", 2, "") == Err(UnknownRoot("G#"))
  {
  }

  /** The tests' spelled-out double sharp, refused as an alteration token. */
  lemma AlterationErrorExample()
    ensures Spell("A", 6, "##") == Err(InvalidAlteration("##"))
  {
  }

  /** The sixth of A is a diatonic F#; a double sharp on it would be a triple sharp. */
  lemma UnspellableExample()
    ensures Spell("A", 6, "x") == Err(Unspellable("F#x"))
    ensures Message(Unspellable("F#x")) == "Invalid interval F#x"
  {
    SpellByOffset("A", 6, "x");
    assert MajorInterval("A", 6) == "F#";
    assert NetOffset("F#", "x") == 3 by { assert "F#"[1..] == "#"; }
    assert "F#" + "x" == "F#x";
  }

  /** The tests' answers to the unison of C: "C" is right, "C#" is wrong. */
  lemma AnswerExamples()
    ensures IsCorrect(IntervalAnswer(Interval("C", 1, ""), "C"))
    ensures !IsCorrect(IntervalAnswer(Interval("C", 1, ""), "C#"))
  {
    var i: ValidInterval := Interval("C", 1, "");
    RenderNatural(i);
    assert Render(i) == "C";
    RenderingAccepted(i);
    assert ReplaceAll("C#", "##", "x") == "C#" by {
      assert "C#"[..2] == "C#";
      assert "C#"[1..] == "#";
    }
  }

  /** The unison of any key is valid and renders as the key. */
  lemma UnisonRendersKey(root: string)
    requires root in MajorScales
    ensures Valid(Interval(root, 1, "")) && Render(Interval(root, 1, "")) == root
  {
    KeyIsTonic(root);
    RenderNatural(Interval(root, 1, ""));
  }

  /** The unison of any key renders as the key, so an answer to it reports the key as
      the correct answer. */
  lemma UnisonAnswerRepr(root: string, user: string)
    requires root in MajorScales
    ensures Valid(Interval(root, 1, ""))
    ensures AnswerRepr(IntervalAnswer(Interval(root, 1, ""), user)) ==
            "question 1 th, user answer " + user + " - correct answer " + root
  {
    UnisonRendersKey(root);
    var i: ValidInterval := Interval(root, 1, "");
    assert PromptMsg(i) == "1 th" by { assert IntToString(1) == "1"; }
    assert "question " + "1 th" + ", user answer " == "question 1 th, user answer ";
  }
}
