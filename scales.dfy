/**
 * The fixed table of the fifteen major scales of the circle of fifths
 * (`MAJOR_SCALES` in interval_training/lib.py), each spelled with its seven
 * diatonic note names.
 */
module Scales {

  /** A diatonic scale: always seven note names. */
  type Scale = s: seq<string> | |s| == 7 witness ["C", "D", "E", "F", "G", "A", "B"]

  /** The keys in the order the table lists them (the order `list(MAJOR_SCALES)` yields). */
  const Keys: seq<string> :=
    ["C", "G", "F", "D", "Bb", "A", "Eb", "E", "Ab", "B", "Db", "F#", "Gb", "Cb", "C#"]

  /** `MAJOR_SCALES`: each key mapped to its scale. */
  const MajorScales: map<string, Scale> := map[
    "C" := ["C", "D", "E", "F", "G", "A", "B"],
    "G" := ["G", "A", "B", "C", "D", "E", "F#"],
    "F" := ["F", "G", "A", "Bb", "C", "D", "E"],
    "D" := ["D", "E", "F#", "G", "A", "B", "C#"],
    "Bb" := ["Bb", "C", "D", "Eb", "F", "G", "A"],
    "A" := ["A", "B", "C#", "D", "E", "F#", "G#"],
    "Eb" := ["Eb", "F", "G", "Ab", "Bb", "C", "D"],
    "E" := ["E", "F#", "G#", "A", "B", "C#", "D#"],
    "Ab" := ["Ab", "Bb", "C", "Db", "Eb", "F", "G"],
    "B" := ["B", "C#", "D#", "E", "F#", "G#", "A#"],
    "Db" := ["Db", "Eb", "F", "Gb", "Ab", "Bb", "C"],
    "F#" := ["F#", "G#", "A#", "B", "C#", "D#", "E#"],
    "Gb" := ["Gb", "Ab", "Bb", "Cb", "Db", "Eb", "F"],
    "Cb" := ["Cb", "Db", "Eb", "Fb", "Gb", "Ab", "Bb"],
    "C#" := ["C#", "D#", "E#", "F#", "G#", "A#", "B#"]
  ]

  /** A natural note letter. */
  predicate IsLetter(c: char)
  {
    'A' <= c <= 'G'
  }

  /** The accidentals a diatonic spelling may carry: none, one flat or one sharp. */
  predicate IsScaleAccidental(a: string)
  {
    a == "" || a == "b" || a == "#"
  }

  /** A note name as the table writes it: a letter and at most one accidental. */
  predicate IsNoteName(s: string)
  {
    (|s| == 1 || (|s| == 2 && (s[1] == 'b' || s[1] == '#'))) && IsLetter(s[0])
  }

  /** The accidental part of a note name is one the table may use. */
  lemma NoteNameParts(s: string)
    requires IsNoteName(s)
    ensures IsScaleAccidental(s[1..]) && s == [s[0]] + s[1..]
  {
    if |s| == 2 {
      assert s[1..] == [s[1]];
    }
  }

  predicate WellSpelledScale(key: string, scale: Scale)
  {
    scale[0] == key &&
    IsNoteName(scale[0]) && IsNoteName(scale[1]) && IsNoteName(scale[2]) && IsNoteName(scale[3]) &&
    IsNoteName(scale[4]) && IsNoteName(scale[5]) && IsNoteName(scale[6])
  }

  /** The key list names exactly the table's keys, each once. */
  lemma KeysAreTheTable()
    ensures |Keys| == 15
    ensures forall i, j :: 0 <= i < j < |Keys| ==> Keys[i] != Keys[j]
    ensures forall k :: k in MajorScales <==> k in Keys
  {
  }

  /** A sequence without repeated elements has as many distinct elements as entries. */
  lemma {:induction false} DistinctCount(s: seq<string>)
    requires forall i, j :: 0 <= i < j < |s| ==> s[i] != s[j]
    ensures |set i | 0 <= i < |s| :: s[i]| == |s|
  {
    if |s| > 0 {
      var t := s[..|s| - 1];
      DistinctCount(t);
      var st := set i | 0 <= i < |t| :: t[i];
      assert (set i | 0 <= i < |s| :: s[i]) == st + {s[|s| - 1]};
      assert s[|s| - 1] !in st;
    }
  }

  /** The table has fifteen keys. */
  lemma TableSize()
    ensures |MajorScales| == 15
  {
    KeysAreTheTable();
    DistinctCount(Keys);
    assert MajorScales.Keys == set i | 0 <= i < |Keys| :: Keys[i];
  }

  /** The scales of the first five keys are well spelled. */
  lemma FirstRowsSpelling(i: nat)
    requires i < 5
    ensures Keys[i] in MajorScales && WellSpelledScale(Keys[i], MajorScales[Keys[i]])
  {
    if i == 0 {} else if i == 1 {} else if i == 2 {} else if i == 3 {} else {}
  }

  /** The scales of the middle five keys are well spelled. */
  lemma MiddleRowsSpelling(i: nat)
    requires 5 <= i < 10
    ensures Keys[i] in MajorScales && WellSpelledScale(Keys[i], MajorScales[Keys[i]])
  {
    if i == 5 {} else if i == 6 {} else if i == 7 {} else if i == 8 {} else {}
  }

  /** The scales of the last five keys are well spelled. */
  lemma LastRowsSpelling(i: nat)
    requires 10 <= i < 15
    ensures Keys[i] in MajorScales && WellSpelledScale(Keys[i], MajorScales[Keys[i]])
  {
    if i == 10 {} else if i == 11 {} else if i == 12 {} else if i == 13 {} else {}
  }

  /** The scale of the `i`-th key is well spelled. */
  lemma RowSpelling(i: nat)
    requires i < |Keys|
    ensures Keys[i] in MajorScales && WellSpelledScale(Keys[i], MajorScales[Keys[i]])
  {
    if i < 5 { FirstRowsSpelling(i); }
    else if i < 10 { MiddleRowsSpelling(i); }
    else { LastRowsSpelling(i); }
  }

  /** Each scale starts on its key and is spelled with a letter and at most one
      accidental per degree. */
  lemma TableSpelling()
    ensures forall key :: key in MajorScales ==> WellSpelledScale(key, MajorScales[key])
  {
    forall key | key in MajorScales ensures WellSpelledScale(key, MajorScales[key]) {
      KeysAreTheTable();
      var i :| 0 <= i < |Keys| && Keys[i] == key;
      RowSpelling(i);
    }
  }

  /** Every scale starts on its own key. */
  lemma KeyIsTonic(key: string)
    requires key in MajorScales
    ensures MajorScales[key][0] == key
  {
    TableSpelling();
  }
}
