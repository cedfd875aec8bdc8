/** The two-window boundary mapping of parse_cpp.php: instead of aligning the whole barcode
    against the reference, it aligns the first and the last 100 characters and composes the
    reference span from the start of the first alignment and the end of the second, and the
    query span likewise, shifting the second alignment's end back into query coordinates. */
module BoundaryMapper {
  import opened Wrappers
  import opened AlignProtocol
  import CppClean
  import SmithWaterman

  /** $subsequence_length. */
  const WindowLength := 100

  /** cpp_align as the mapper calls it: spans, or the exception it throws. */
  type Aligner = (string, string) -> Result<Alignment, AlignError>

  /** cpp_align over a given process boundary. */
  function CppAligner(exec: Exec): Aligner {
    (seq1, seq2) => CppAlignVia(exec, seq1, seq2)
  }

  /** The two spans printed for a barcode: on the reference and on the query. */
  datatype Mapping = Mapping(reference: Span, query: Span)

  /** How many characters substr takes for a window of a string of length n. */
  function WindowSize(n: nat): (w: nat)
    ensures w <= n && w <= WindowLength
    ensures w == n || w == WindowLength
  {
    if n < WindowLength then n else WindowLength
  }

  /** substr($seq2, 0, 100). */
  function Prefix(query: string): (p: string)
    ensures |p| == WindowSize(|query|) && p == query[..|p|]
  {
    query[..WindowSize(|query|)]
  }

  /** substr($seq2, -100): the whole string when it is shorter than the window. */
  function Suffix(query: string): (s: string)
    ensures |s| == WindowSize(|query|) && s == query[|query| - |s|..]
  {
    query[|query| - WindowSize(|query|)..]
  }

  /** The boundary mapping of `query` onto `reference`, or the exception of the first cpp_align
      call that throws. */
  function MappingOf(align: Aligner, reference: string, query: string): Result<Mapping, AlignError> {
    match align(reference, Prefix(query))
    case Failure(e) => Failure(e)
    case Success(a) =>
      match align(reference, Suffix(query))
      case Failure(e) => Failure(e)
      case Success(b) =>
        Success(Mapping(Span(a.seq1.start, b.seq1.end),
                        Span(a.seq2.start, |query| - |Suffix(query)| + b.seq2.end)))
  }

  /** The try block: the $spans array filled corner by corner from the two alignments. */
  method MapBoundary(align: Aligner, seq1: string, seq2: string) returns (r: Result<Mapping, AlignError>)
    ensures r == MappingOf(align, seq1, seq2)
  {
    var sequenceLength := |seq2|;
    var subsequenceLength := WindowLength;
    var spans := new int[2, 2]((_, _) => 0);

    var take := if sequenceLength < subsequenceLength then sequenceLength else subsequenceLength;
    var prefix := seq2[..take];
    var alignment := align(seq1, prefix);
    if alignment.Failure? {
      return Failure(alignment.error);
    }
    spans[0, 0] := alignment.value.seq1.start;
    spans[1, 0] := alignment.value.seq2.start;

    var suffix := seq2[sequenceLength - take..];
    var suffixLength := |suffix|;
    alignment := align(seq1, suffix);
    if alignment.Failure? {
      return Failure(alignment.error);
    }
    spans[0, 1] := alignment.value.seq1.end;
    spans[1, 1] := sequenceLength - suffixLength + alignment.value.seq2.end;

    r := Success(Mapping(Span(spans[0, 0], spans[0, 1]), Span(spans[1, 0], spans[1, 1])));
  }

  /** A query of at most 100 characters is its own prefix and suffix window, the offset is 0,
      and the mapping is the spans of one alignment of the whole query. */
  lemma ShortQueryMapsWhole(align: Aligner, reference: string, query: string)
    requires |query| <= WindowLength
    ensures MappingOf(align, reference, query) ==
      match align(reference, query)
      case Failure(e) => Failure(e)
      case Success(a) => Success(Mapping(a.seq1, a.seq2))
  {
    assert Prefix(query) == query;
    assert Suffix(query) == query;
  }

  /** The first failing cpp_align call decides the error; the suffix is aligned only when the
      prefix alignment succeeded. */
  lemma MappingErrors(align: Aligner, reference: string, query: string)
    ensures align(reference, Prefix(query)).Failure? ==>
      MappingOf(align, reference, query) == Failure(align(reference, Prefix(query)).error)
    ensures align(reference, Prefix(query)).Success? && align(reference, Suffix(query)).Failure? ==>
      MappingOf(align, reference, query) == Failure(align(reference, Suffix(query)).error)
    ensures MappingOf(align, reference, query).Success? <==>
      align(reference, Prefix(query)).Success? && align(reference, Suffix(query)).Success?
  {
  }

  /** The score of the Smith-Waterman alignment the binary runs for `query`. */
  function Score(reference: string, query: string): int {
    SmithWaterman.Align(CppClean.Cleaned(reference), CppClean.Cleaned(query)).score
  }

  /** The aligner returns the spans of the Smith-Waterman alignment of its cleaned arguments. */
  ghost predicate RunsSmithWaterman(align: Aligner) {
    forall seq1, seq2 :: align(seq1, seq2) == Success(Spans(SmithWaterman.Align(CppClean.Cleaned(seq1), CppClean.Cleaned(seq2))))
  }

  /** cpp_align through the modelled binary is such an aligner. */
  lemma BinaryRunsSmithWaterman()
    ensures RunsSmithWaterman(CppAligner(Binary))
  {
    forall seq1, seq2 ensures CppAligner(Binary)(seq1, seq2) == Success(Spans(SmithWaterman.Align(CppClean.Cleaned(seq1), CppClean.Cleaned(seq2)))) {
      CppAlignBinary(seq1, seq2);
    }
  }

  /** With the Smith-Waterman aligner the mapping always exists, and when both windows match
      something, the reference span lies inside the reference, the query start inside the
      prefix window and the query end inside the suffix window. */
  lemma MappingInBounds(align: Aligner, reference: string, query: string)
    requires RunsSmithWaterman(align)
    ensures MappingOf(align, reference, query).Success?
    ensures var m := MappingOf(align, reference, query).value;
      Score(reference, Prefix(query)) > 0 && Score(reference, Suffix(query)) > 0 ==>
        && 0 <= m.reference.start < |reference| && 0 <= m.reference.end < |reference|
        && 0 <= m.query.start < WindowSize(|query|)
        && |query| - WindowSize(|query|) <= m.query.end < |query|
  {
    var ref := CppClean.Cleaned(reference);
    var pre := CppClean.Cleaned(Prefix(query));
    var suf := CppClean.Cleaned(Suffix(query));
    assert align(reference, Prefix(query)) == Success(Spans(SmithWaterman.Align(ref, pre)));
    assert align(reference, Suffix(query)) == Success(Spans(SmithWaterman.Align(ref, suf)));
    if Score(reference, Prefix(query)) > 0 && Score(reference, Suffix(query)) > 0 {
      SmithWaterman.AlignSpansInBounds(ref, pre);
      SmithWaterman.AlignSpansInBounds(ref, suf);
      CppClean.CleanedShorter(reference);
      CppClean.CleanedShorter(Prefix(query));
      CppClean.CleanedShorter(Suffix(query));
    }
  }

  /** When neither window matches anything, both alignments are (0,-1) pairs: the reference
      span is (0, -1) and the query span (0, n - min(100, n) - 1). */
  lemma MappingNoMatch(align: Aligner, reference: string, query: string)
    requires RunsSmithWaterman(align)
    requires Score(reference, Prefix(query)) == 0 && Score(reference, Suffix(query)) == 0
    ensures MappingOf(align, reference, query) ==
      Success(Mapping(Span(0, -1), Span(0, |query| - WindowSize(|query|) - 1)))
  {
    var ref := CppClean.Cleaned(reference);
    var pre := CppClean.Cleaned(Prefix(query));
    var suf := CppClean.Cleaned(Suffix(query));
    assert align(reference, Prefix(query)) == Success(Spans(SmithWaterman.Align(ref, pre)));
    assert align(reference, Suffix(query)) == Success(Spans(SmithWaterman.Align(ref, suf)));
    SmithWaterman.AlignZero(ref, pre);
    SmithWaterman.AlignZero(ref, suf);
  }
}
