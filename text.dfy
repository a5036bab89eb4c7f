/**
 * The few pieces of Python's string library the quiz relies on, stated over
 * `seq<char>`: `str.replace`, `str.count` of a one-character substring,
 * `str(int)` and `"\n".join`.
 */
module Text {

  /** Python's `s.replace(pat, rep)` for a non-empty `pat`: a left-to-right scan that
      replaces non-overlapping occurrences and never rescans replaced text. */
  function ReplaceAll(s: string, pat: string, rep: string): string
    requires |pat| > 0
    decreases |s|
  {
    if |s| < |pat| then s
    else if s[..|pat|] == pat then rep + ReplaceAll(s[|pat|..], pat, rep)
    else [s[0]] + ReplaceAll(s[1..], pat, rep)
  }

  /** True when `pat` occurs in `s` starting at index `k`. */
  predicate OccursAt(s: string, pat: string, k: nat)
  {
    k + |pat| <= |s| && s[k..k + |pat|] == pat
  }

  /** A string in which `pat` does not occur is left unchanged by the replacement. */
  lemma {:induction false} ReplaceAllAbsent(s: string, pat: string, rep: string)
    requires |pat| > 0
    requires forall k: nat :: !OccursAt(s, pat, k)
    ensures ReplaceAll(s, pat, rep) == s
    decreases |s|
  {
    if |s| >= |pat| {
      assert !OccursAt(s, pat, 0);
      assert s[0..|pat|] == s[..|pat|];
      forall k: nat ensures !OccursAt(s[1..], pat, k) {
        assert !OccursAt(s, pat, k + 1);
      }
      ReplaceAllAbsent(s[1..], pat, rep);
      assert [s[0]] + s[1..] == s;
    }
  }

  /** `ReplaceAll` for a two-character pattern, stated on characters. */
  function ReplacePair(s: string, a: char, b: char, rep: string): string
    decreases |s|
  {
    if |s| >= 2 && s[0] == a && s[1] == b then rep + ReplacePair(s[2..], a, b, rep)
    else if |s| == 0 then s
    else [s[0]] + ReplacePair(s[1..], a, b, rep)
  }

  lemma {:induction false} ReplacePairIsReplaceAll(s: string, a: char, b: char, rep: string)
    ensures ReplacePair(s, a, b, rep) == ReplaceAll(s, [a, b], rep)
    decreases |s|
  {
    if |s| >= 2 {
      if s[0] == a && s[1] == b {
        assert s[..2] == [a, b];
        ReplacePairIsReplaceAll(s[2..], a, b, rep);
      } else {
        assert s[..2] != [a, b] by { assert s[..2][0] == s[0] && s[..2][1] == s[1]; }
        ReplacePairIsReplaceAll(s[1..], a, b, rep);
      }
    } else if |s| == 1 {
      assert s[1..] == [];
    }
  }

  /** A leading character that cannot start the pattern passes through untouched. */
  lemma ReplacePairCons(c: char, t: string, a: char, b: char, rep: string)
    requires c != a
    ensures ReplacePair([c] + t, a, b, rep) == [c] + ReplacePair(t, a, b, rep)
  {
    assert ([c] + t)[1..] == t;
  }

  /** `ReplaceAll` for a one-character pattern, stated on characters. */
  function ReplaceChar(s: string, a: char, rep: string): string
    decreases |s|
  {
    if |s| == 0 then s
    else if s[0] == a then rep + ReplaceChar(s[1..], a, rep)
    else [s[0]] + ReplaceChar(s[1..], a, rep)
  }

  lemma {:induction false} ReplaceCharIsReplaceAll(s: string, a: char, rep: string)
    ensures ReplaceChar(s, a, rep) == ReplaceAll(s, [a], rep)
    decreases |s|
  {
    if |s| > 0 {
      assert s[..1] == [s[0]];
      ReplaceCharIsReplaceAll(s[1..], a, rep);
    }
  }

  lemma ReplaceCharCons(c: char, t: string, a: char, rep: string)
    requires c != a
    ensures ReplaceChar([c] + t, a, rep) == [c] + ReplaceChar(t, a, rep)
  {
    assert ([c] + t)[1..] == t;
  }

  /** Python's `s.count(c)` for a one-character string `c`: the number of positions holding `c`. */
  function CountChar(s: string, c: char): (n: nat)
    ensures n <= |s|
    ensures n == 0 <==> forall k :: 0 <= k < |s| ==> s[k] != c
  {
    if |s| == 0 then 0
    else (if s[0] == c then 1 else 0) + CountChar(s[1..], c)
  }

  lemma CountCharCons(d: char, t: string, c: char)
    requires d != c
    ensures CountChar([d] + t, c) == CountChar(t, c)
  {
    assert ([d] + t)[1..] == t;
  }

  predicate IsDigit(c: char)
  {
    '0' <= c <= '9'
  }

  predicate AllDigits(s: string)
  {
    forall k :: 0 <= k < |s| ==> IsDigit(s[k])
  }

  function DigitChar(d: nat): (c: char)
    requires d < 10
    ensures IsDigit(c)
  {
    "0123456789"[d]
  }

  function DigitValue(c: char): nat
    requires IsDigit(c)
  {
    c as int - '0' as int
  }

  lemma DigitRoundTrip(d: nat)
    requires d < 10
    ensures DigitValue(DigitChar(d)) == d
  {
  }

  /** Python's `str(n)` for a natural number: its decimal digits, most significant first. */
  function NatToString(n: nat): (s: string)
    ensures |s| > 0 && AllDigits(s)
    decreases n
  {
    if n < 10 then [DigitChar(n)]
    else NatToString(n / 10) + [DigitChar(n % 10)]
  }

  /** Python's `str(n)` for any integer. */
  function IntToString(n: int): string
  {
    if n < 0 then "-" + NatToString(-n) else NatToString(n)
  }

  /** The number a string of decimal digits denotes. */
  function DigitsValue(s: string): nat
    requires AllDigits(s)
    decreases |s|
  {
    if |s| == 0 then 0
    else 10 * DigitsValue(s[..|s| - 1]) + DigitValue(s[|s| - 1])
  }

  /** Reading back the decimal text of `n` gives `n`. */
  lemma {:induction false} NatToStringRoundTrip(n: nat)
    ensures DigitsValue(NatToString(n)) == n
    decreases n
  {
    var s := NatToString(n);
    if n >= 10 {
      NatToStringRoundTrip(n / 10);
      assert s[..|s| - 1] == NatToString(n / 10);
      DigitRoundTrip(n % 10);
    } else {
      DigitRoundTrip(n);
    }
  }

  /** The longest prefix of `s` made of decimal digits. */
  function LeadingDigits(s: string): (p: string)
    ensures AllDigits(p) && |p| <= |s| && p == s[..|p|]
    ensures |p| < |s| ==> !IsDigit(s[|p|])
  {
    if |s| > 0 && IsDigit(s[0]) then [s[0]] + LeadingDigits(s[1..]) else ""
  }

  /** The digit prefix of a digit string followed by a non-digit is that digit string. */
  lemma {:induction false} LeadingDigitsOf(ds: string, rest: string)
    requires AllDigits(ds)
    requires rest == [] || !IsDigit(rest[0])
    ensures LeadingDigits(ds + rest) == ds
  {
    if |ds| > 0 {
      assert (ds + rest)[0] == ds[0];
      assert (ds + rest)[1..] == ds[1..] + rest;
      LeadingDigitsOf(ds[1..], rest);
    } else {
      assert ds + rest == rest;
    }
  }

  /** Python's `"\n".join(lines)`. */
  function JoinLines(lines: seq<string>): string
  {
    if |lines| == 0 then ""
    else if |lines| == 1 then lines[0]
    else JoinLines(lines[..|lines| - 1]) + "\n" + lines[|lines| - 1]
  }

  /** Joining keeps the lines in order: one more line goes at the end, after one newline. */
  lemma JoinLinesAppend(lines: seq<string>, line: string)
    requires |lines| > 0
    ensures JoinLines(lines + [line]) == JoinLines(lines) + "\n" + line
  {
    assert (lines + [line])[..|lines|] == lines;
  }

  /** The text before the first `sep` (all of `s` when there is none): the first field
      of `s.split(sep)`. */
  function FirstField(s: string, sep: char): (p: string)
    ensures |p| <= |s| && p == s[..|p|] && sep !in p
    ensures |p| < |s| ==> s[|p|] == sep
  {
    if |s| > 0 && s[0] != sep then [s[0]] + FirstField(s[1..], sep) else ""
  }

  /** A field free of separators followed by a separator is the first field. */
  lemma {:induction false} FirstFieldOf(field: string, sep: char, rest: string)
    requires sep !in field
    ensures FirstField(field + [sep] + rest, sep) == field
  {
    if |field| > 0 {
      assert (field + [sep] + rest)[0] == field[0];
      assert (field + [sep] + rest)[1..] == field[1..] + [sep] + rest;
      FirstFieldOf(field[1..], sep, rest);
    } else {
      assert field + [sep] + rest == [sep] + rest;
    }
  }
}
