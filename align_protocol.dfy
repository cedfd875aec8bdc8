/** The text boundary between the PHP driver and the C++ aligner: main (src/align.cpp) prints
    "s1,e1 s2,e2" and cpp_align (parse_cpp.php) trims, splits and int-casts it back. */
module AlignProtocol {
  import opened Wrappers
  import opened Text
  import CppClean
  import SmithWaterman

  /** Zero-based span with an inclusive end, as the aligner reports it. */
  datatype Span = Span(start: int, end: int)

  /** The array cpp_align returns: 'seq1' and 'seq2' spans. */
  datatype Alignment = Alignment(seq1: Span, seq2: Span)

  /** The two exceptions cpp_align throws. */
  datatype AlignError = ExecFailed | InvalidOutput(output: string)

  /** The spans of a result, as the PHP side wants them. */
  function Spans(r: SmithWaterman.AlignmentResult): Alignment {
    Alignment(Span(r.seq1Start, r.seq1End), Span(r.seq2Start, r.seq2End))
  }

  /** One comma-joined pair of the output line. */
  function RenderPair(start: int, end: int): string {
    IntToString(start) + "," + IntToString(end)
  }

  /** What main writes to standard output for a result, endl included. */
  function Render(r: SmithWaterman.AlignmentResult): string {
    RenderPair(r.seq1Start, r.seq1End) + " " + RenderPair(r.seq2Start, r.seq2End) + "\n"
  }

  /** PHP reads a missing array element as null, which (int) turns into 0. */
  function CastAt(parts: seq<string>, k: nat): int {
    if k < |parts| then CastInt(parts[k]) else 0
  }

  /** The parsing half of cpp_align: null output is an execution failure; otherwise the trimmed
      text must split at spaces into exactly two parts, each then split at commas and cast. */
  function ParseAlignOutput(output: Option<string>): (r: Result<Alignment, AlignError>)
    ensures output.None? ==> r == Failure(ExecFailed)
    ensures output.Some? ==> (r.Failure? <==> Count(Trim(output.value), ' ') != 1)
    ensures r.Failure? && output.Some? ==> r.error == InvalidOutput(Trim(output.value))
  {
    match output
    case None => Failure(ExecFailed)
    case Some(text) =>
      var trimmed := Trim(text);
      var parts := Split(trimmed, ' ');
      if |parts| != 2 then Failure(InvalidOutput(trimmed))
      else
        var seq1Span := Split(parts[0], ',');
        var seq2Span := Split(parts[1], ',');
        Success(Alignment(Span(CastAt(seq1Span, 0), CastAt(seq1Span, 1)),
                          Span(CastAt(seq2Span, 0), CastAt(seq2Span, 1))))
  }

  lemma IntToStringShape(x: int)
    ensures IntToString(x) != []
    ensures ' ' !in IntToString(x) && ',' !in IntToString(x)
    ensures !IsTrimmed(IntToString(x)[0]) && !IsTrimmed(IntToString(x)[|IntToString(x)| - 1])
  {
    var n: nat := if x < 0 then -x else x;
    var digits := NatToString(n);
    if x < 0 {
      assert IntToString(x) == "-" + digits;
      assert forall k :: 1 <= k < |IntToString(x)| ==> IntToString(x)[k] == digits[k - 1];
    }
  }

  lemma RenderPairShape(a: int, b: int)
    ensures ' ' !in RenderPair(a, b)
    ensures Split(RenderPair(a, b), ',') == [IntToString(a), IntToString(b)]
  {
    IntToStringShape(a);
    IntToStringShape(b);
    SplitAt(IntToString(a), ',', IntToString(b));
    SplitNone(IntToString(b), ',');
  }

  /** The printed line is two comma-joined pairs separated by one space, then a newline. */
  lemma RenderShape(r: SmithWaterman.AlignmentResult)
    ensures Trim(Render(r)) == RenderPair(r.seq1Start, r.seq1End) + " " + RenderPair(r.seq2Start, r.seq2End)
    ensures Split(Trim(Render(r)), ' ') == [RenderPair(r.seq1Start, r.seq1End), RenderPair(r.seq2Start, r.seq2End)]
    ensures Split(RenderPair(r.seq1Start, r.seq1End), ',') == [IntToString(r.seq1Start), IntToString(r.seq1End)]
    ensures Split(RenderPair(r.seq2Start, r.seq2End), ',') == [IntToString(r.seq2Start), IntToString(r.seq2End)]
  {
    var p1, p2 := RenderPair(r.seq1Start, r.seq1End), RenderPair(r.seq2Start, r.seq2End);
    var line := p1 + " " + p2;
    IntToStringShape(r.seq1Start);
    IntToStringShape(r.seq2End);
    assert line[0] == IntToString(r.seq1Start)[0];
    assert line[|line| - 1] == IntToString(r.seq2End)[|IntToString(r.seq2End)| - 1];
    assert Render(r) == line + "\n";
    TrimNewline(line);
    RenderPairShape(r.seq1Start, r.seq1End);
    RenderPairShape(r.seq2Start, r.seq2End);
    SplitAt(p1, ' ', p2);
    SplitNone(p2, ' ');
  }

  /** cpp_align recovers exactly the four integers main printed. */
  lemma ParseRender(r: SmithWaterman.AlignmentResult)
    ensures ParseAlignOutput(Some(Render(r))) == Success(Spans(r))
  {
    RenderShape(r);
    CastIntToString(r.seq1Start);
    CastIntToString(r.seq1End);
    CastIntToString(r.seq2Start);
    CastIntToString(r.seq2End);
  }

  /** shell_exec of the aligner command: the text the process printed, or null (None) when it
      could not be run or printed nothing. shell_exec never returns the empty string, so
      Some("") stands for its other failure, false when no pipe can be opened, which trim turns
      into "" and cpp_align rejects as invalid output. */
  type Exec = (string, string) -> Option<string>

  /** cpp_align with the process boundary as a parameter. */
  function CppAlignVia(exec: Exec, seq1: string, seq2: string): Result<Alignment, AlignError> {
    ParseAlignOutput(exec(seq1, seq2))
  }

  /** The aligner binary as shell_exec sees it: it always runs, and prints main's line for the
      cleaned arguments. */
  function Binary(arg1: string, arg2: string): Option<string> {
    Some(Render(SmithWaterman.Align(CppClean.Cleaned(arg1), CppClean.Cleaned(arg2))))
  }

  /** Through the modelled binary, cpp_align succeeds with the spans of the Smith-Waterman
      alignment of the cleaned arguments. */
  lemma CppAlignBinary(seq1: string, seq2: string)
    ensures CppAlignVia(Binary, seq1, seq2) == Success(Spans(SmithWaterman.Align(CppClean.Cleaned(seq1), CppClean.Cleaned(seq2))))
  {
    ParseRender(SmithWaterman.Align(CppClean.Cleaned(seq1), CppClean.Cleaned(seq2)));
  }

  /** The aligner binary on two arguments: main with argc == 3. */
  method AlignBinary(arg1: string, arg2: string) returns (output: string)
    ensures output == Render(SmithWaterman.Align(CppClean.Cleaned(arg1), CppClean.Cleaned(arg2)))
  {
    var seq1 := CppClean.CleanSequence(arg1);
    var seq2 := CppClean.CleanSequence(arg2);
    var result := SmithWaterman.SmithWaterman(seq1, seq2);
    output := Render(result);
  }

  /** cpp_align: run the binary and parse what it printed. With the binary modelled above, the
      call always succeeds and returns the spans of the Smith-Waterman alignment of the cleaned
      arguments. */
  method CppAlign(seq1: string, seq2: string) returns (r: Result<Alignment, AlignError>)
    ensures r == Success(Spans(SmithWaterman.Align(CppClean.Cleaned(seq1), CppClean.Cleaned(seq2))))
  {
    var output := AlignBinary(seq1, seq2);
    ParseRender(SmithWaterman.Align(CppClean.Cleaned(seq1), CppClean.Cleaned(seq2)));
    r := ParseAlignOutput(Some(output));
  }
}
