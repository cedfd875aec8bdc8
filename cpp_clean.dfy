/** clean_sequence (src/align.cpp): one pass over the input that keeps only A, C, G, T and N,
    turning the other IUPAC ambiguity codes into N and dropping everything else. */
module CppClean {
  import opened Text
  import PhpClean

  /** The ambiguity codes clean_sequence turns into N (N itself is kept as it is). */
  predicate IsAmbiguityCode(c: char) {
    c == 'R' || c == 'Y' || c == 'K' || c == 'M' || c == 'S' ||
    c == 'W' || c == 'B' || c == 'H' || c == 'D' || c == 'V'
  }

  predicate IsNucleotide(c: char) {
    c == 'A' || c == 'T' || c == 'G' || c == 'C' || c == 'N'
  }

  /** What clean_sequence appends for one input character. */
  function CleanChar(c: char): (r: string)
    ensures |r| <= 1
  {
    var u := ToUpper(c);
    if IsSpace(u) || IsDigit(u) || u == '-' || u == 'I' then ""
    else if IsAmbiguityCode(u) then "N"
    else if IsNucleotide(u) then [u]
    else ""
  }

  /** The value clean_sequence returns. */
  function Cleaned(s: string): string {
    FlatMap(CleanChar, s)
  }

  /** clean_sequence, as the loop the source runs. */
  method CleanSequence(sequence: string) returns (cleaned: string)
    ensures cleaned == Cleaned(sequence)
  {
    cleaned := "";
    for k := 0 to |sequence|
      invariant cleaned == Cleaned(sequence[..k])
    {
      FlatMapSnoc(CleanChar, sequence, k);
      var upper := ToUpper(sequence[k]);
      if IsSpace(upper) || IsDigit(upper) || upper == '-' || upper == 'I' {
        continue;
      }
      if IsAmbiguityCode(upper) {
        cleaned := cleaned + "N";
      } else if IsNucleotide(upper) {
        cleaned := cleaned + [upper];
      }
    }
    assert sequence[..|sequence|] == sequence;
  }

  /** The output is over the alphabet A, C, G, T, N. */
  lemma CleanedAlphabet(s: string)
    ensures forall k :: 0 <= k < |Cleaned(s)| ==> IsNucleotide(Cleaned(s)[k])
  {
    FlatMapChars(CleanChar, s, IsNucleotide);
  }

  lemma {:induction false} CleanedShorter(s: string)
    ensures |Cleaned(s)| <= |s|
  {
    if s != [] { CleanedShorter(s[1..]); }
  }

  /** The strings clean_sequence leaves unchanged are exactly those over A, C, G, T, N. */
  lemma {:induction false} CleanedFixpoint(s: string)
    ensures Cleaned(s) == s <==> forall k :: 0 <= k < |s| ==> IsNucleotide(s[k])
  {
    if forall k :: 0 <= k < |s| ==> IsNucleotide(s[k]) {
      if s != [] {
        assert forall k :: 0 <= k < |s[1..]| ==> IsNucleotide(s[1..][k]) by {
          forall k | 0 <= k < |s[1..]| ensures IsNucleotide(s[1..][k]) { assert s[1..][k] == s[k + 1]; }
        }
        CleanedFixpoint(s[1..]);
        assert [s[0]] + s[1..] == s;
      }
    } else {
      CleanedAlphabet(s);
    }
  }

  /** clean_sequence is idempotent. */
  lemma CleanedIdempotent(s: string)
    ensures Cleaned(Cleaned(s)) == Cleaned(s)
  {
    CleanedAlphabet(s);
    CleanedFixpoint(Cleaned(s));
  }

  lemma CleanAfterSwaChar(c: char)
    ensures Cleaned(PhpClean.SwaCleanChar(c)) == CleanChar(c)
  {
    var p := PhpClean.SwaCleanChar(c);
    if p != [] {
      assert p == [p[0]] && p[1..] == [];
      assert Cleaned(p) == CleanChar(p[0]) + Cleaned([]);
    }
  }

  lemma {:induction false} CleanAfterSwaPointwise(s: string)
    ensures Cleaned(FlatMap(PhpClean.SwaCleanChar, s)) == Cleaned(s)
  {
    if s != [] {
      FlatMapConcat(CleanChar, PhpClean.SwaCleanChar(s[0]), FlatMap(PhpClean.SwaCleanChar, s[1..]));
      CleanAfterSwaChar(s[0]);
      CleanAfterSwaPointwise(s[1..]);
    }
  }

  /** The sense in which swa_clean_sequence matches clean_sequence: the aligner, which cleans its
      arguments again, sees the same sequence whether or not the PHP side cleaned it first. */
  lemma CleanedAfterSwaClean(s: string)
    ensures Cleaned(PhpClean.SwaCleanSequence(s)) == Cleaned(s)
  {
    PhpClean.SwaCleanPointwise(s);
    CleanAfterSwaPointwise(s);
  }

  /** The two cleaners are not the same function: a character that is neither removed nor a
      nucleotide or ambiguity code once upper-cased (X, U, '.', ...) is passed through by
      swa_clean_sequence, upper-cased, and dropped by clean_sequence. */
  lemma CleanersDisagree(c: char)
    requires !PhpClean.IsLineBreak(c) && !IsSpace(ToUpper(c)) && !IsDigit(ToUpper(c))
    requires ToUpper(c) != '-' && ToUpper(c) != 'I'
    requires !PhpClean.IsAmbiguity(ToUpper(c)) && !IsNucleotide(ToUpper(c))
    ensures PhpClean.SwaCleanSequence([c]) == [ToUpper(c)] && Cleaned([c]) == []
  {
    PhpClean.SwaCleanSingle(c);
    assert !PhpClean.IsLineBreak(ToUpper(c));
    assert FlatMap(CleanChar, [c]) == CleanChar(c) + FlatMap(CleanChar, []);
  }

  /** For instance the letter x. */
  lemma SwaCleanKeepsUnknownLetter()
    ensures PhpClean.SwaCleanSequence("x") == "X" && Cleaned("x") == ""
  {
    CleanersDisagree('x');
  }
}
