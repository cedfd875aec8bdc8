/** swa_clean_sequence (parse_cpp.php): an ordered chain of upper-casing and single-class
    regular-expression replacements. Each stage rewrites characters one at a time, so the
    whole chain is described by what it does to a single character (SwaCleanChar). */
module PhpClean {
  import opened Text

  /** PCRE's \R in UTF mode: \n, \v, \f, \r (and so \r\n), NEL, LINE SEPARATOR, PARAGRAPH SEPARATOR. */
  predicate IsLineBreak(c: char) {
    c == '\n' || c == '\U{B}' || c == '\U{C}' || c == '\r' || c == '\U{85}' || c == '\U{2028}' || c == '\U{2029}'
  }

  /** The class [RYKMSWBHNDV]: IUPAC ambiguity codes, N included. */
  predicate IsAmbiguity(c: char) {
    c == 'R' || c == 'Y' || c == 'K' || c == 'M' || c == 'S' || c == 'W' ||
    c == 'B' || c == 'H' || c == 'N' || c == 'D' || c == 'V'
  }

  // The per-character rewrite of each stage.
  function UpperStage(c: char): string { [ToUpper(c)] }
  function DigitSpaceStage(c: char): string { if IsDigit(c) || IsSpace(c) then "" else [c] }
  function LineBreakStage(c: char): string { if IsLineBreak(c) then "" else [c] }
  function AmbiguityStage(c: char): string { if IsAmbiguity(c) then "N" else [c] }
  function GapStage(c: char): string { if c == '-' then "" else [c] }
  function InsertStage(c: char): string { if c == 'I' then "" else [c] }

  /** swa_clean_sequence: strtoupper, then preg_replace of /[0-9\s]/, /\R/u, /[RYKMSWBHNDV]/,
      /-/ and /I/, in that order. */
  function SwaCleanSequence(sequence: string): string {
    var upper := FlatMap(UpperStage, sequence);
    var noSpace := FlatMap(DigitSpaceStage, upper);
    var noBreak := FlatMap(LineBreakStage, noSpace);
    var ambiguity := FlatMap(AmbiguityStage, noBreak);
    var noGap := FlatMap(GapStage, ambiguity);
    FlatMap(InsertStage, noGap)
  }

  /** What the whole chain makes of one character: nothing, N, or the character upper-cased. */
  function SwaCleanChar(c: char): (r: string)
    ensures |r| <= 1
  {
    var u := ToUpper(c);
    if IsDigit(u) || IsSpace(u) || IsLineBreak(u) || u == '-' || u == 'I' then ""
    else if IsAmbiguity(u) then "N"
    else [u]
  }

  /** A character that can appear in the output of swa_clean_sequence. */
  predicate IsSwaOutputChar(c: char) {
    !IsDigit(c) && !IsSpace(c) && !IsLineBreak(c) && c != '-' && c != 'I' &&
    !('a' <= c <= 'z') && (IsAmbiguity(c) ==> c == 'N')
  }

  lemma SwaCleanConcat(a: string, b: string)
    ensures SwaCleanSequence(a + b) == SwaCleanSequence(a) + SwaCleanSequence(b)
  {
    FlatMapConcat(UpperStage, a, b);
    var u1, u2 := FlatMap(UpperStage, a), FlatMap(UpperStage, b);
    FlatMapConcat(DigitSpaceStage, u1, u2);
    var d1, d2 := FlatMap(DigitSpaceStage, u1), FlatMap(DigitSpaceStage, u2);
    FlatMapConcat(LineBreakStage, d1, d2);
    var l1, l2 := FlatMap(LineBreakStage, d1), FlatMap(LineBreakStage, d2);
    FlatMapConcat(AmbiguityStage, l1, l2);
    var n1, n2 := FlatMap(AmbiguityStage, l1), FlatMap(AmbiguityStage, l2);
    FlatMapConcat(GapStage, n1, n2);
    var g1, g2 := FlatMap(GapStage, n1), FlatMap(GapStage, n2);
    FlatMapConcat(InsertStage, g1, g2);
  }

  lemma SwaCleanSingle(c: char)
    ensures SwaCleanSequence([c]) == SwaCleanChar(c)
  {
    var u := ToUpper(c);
    assert FlatMap(UpperStage, [c]) == [u];
    var d := DigitSpaceStage(u);
    assert FlatMap(DigitSpaceStage, [u]) == d;
    var l := if d == [] then [] else LineBreakStage(u);
    assert FlatMap(LineBreakStage, d) == l;
    var n := if l == [] then [] else AmbiguityStage(u);
    assert FlatMap(AmbiguityStage, l) == n;
    var g := if n == [] then [] else GapStage(n[0]);
    assert FlatMap(GapStage, n) == g;
    assert FlatMap(InsertStage, g) == if g == [] then [] else InsertStage(g[0]);
  }

  /** The chain is a per-character rewrite: each input character, in order, contributes
      SwaCleanChar of itself to the output. */
  lemma {:induction false} SwaCleanPointwise(s: string)
    ensures SwaCleanSequence(s) == FlatMap(SwaCleanChar, s)
  {
    if s != [] {
      assert s == [s[0]] + s[1..];
      SwaCleanConcat([s[0]], s[1..]);
      SwaCleanSingle(s[0]);
      SwaCleanPointwise(s[1..]);
    }
  }

  lemma SwaCleanCharOutput(c: char)
    ensures forall k :: 0 <= k < |SwaCleanChar(c)| ==> IsSwaOutputChar(SwaCleanChar(c)[k])
  {
  }

  /** The output holds no digit, whitespace, line break, gap, I, lower-case letter, or
      ambiguity code other than N. */
  lemma SwaCleanAlphabet(s: string)
    ensures forall k :: 0 <= k < |SwaCleanSequence(s)| ==> IsSwaOutputChar(SwaCleanSequence(s)[k])
  {
    SwaCleanPointwise(s);
    forall c ensures forall k :: 0 <= k < |SwaCleanChar(c)| ==> IsSwaOutputChar(SwaCleanChar(c)[k]) {
      SwaCleanCharOutput(c);
    }
    FlatMapChars(SwaCleanChar, s, IsSwaOutputChar);
  }

  lemma {:induction false} PointwiseShorter(s: string)
    ensures |FlatMap(SwaCleanChar, s)| <= |s|
  {
    if s != [] { PointwiseShorter(s[1..]); }
  }

  /** Cleaning never lengthens a sequence. */
  lemma SwaCleanShorter(s: string)
    ensures |SwaCleanSequence(s)| <= |s|
  {
    SwaCleanPointwise(s);
    PointwiseShorter(s);
  }

  lemma {:induction false} PointwiseIdempotent(s: string)
    ensures FlatMap(SwaCleanChar, FlatMap(SwaCleanChar, s)) == FlatMap(SwaCleanChar, s)
  {
    if s != [] {
      var head := SwaCleanChar(s[0]);
      var tail := FlatMap(SwaCleanChar, s[1..]);
      FlatMapConcat(SwaCleanChar, head, tail);
      PointwiseIdempotent(s[1..]);
      if head != [] {
        assert head == [head[0]];
        assert FlatMap(SwaCleanChar, head) == SwaCleanChar(head[0]) + FlatMap(SwaCleanChar, []);
      }
    }
  }

  /** Cleaning an already cleaned sequence changes nothing. */
  lemma SwaCleanIdempotent(s: string)
    ensures SwaCleanSequence(SwaCleanSequence(s)) == SwaCleanSequence(s)
  {
    SwaCleanPointwise(s);
    SwaCleanPointwise(SwaCleanSequence(s));
    PointwiseIdempotent(s);
  }
}
