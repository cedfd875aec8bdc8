/** Step 2 of parse_cpp.php: each tab-separated barcode line is deserialized like a catalog row;
    a COI-5P record with a sequence gets a reference accession, both sequences are cleaned with
    swa_clean_sequence, and the two-window mapper places the barcode on the reference. */
module Pipeline {
  import opened Wrappers
  import opened Text
  import opened Catalog
  import opened Selection
  import PhpClean
  import opened AlignProtocol
  import opened BoundaryMapper

  /** What the step makes of one data line with more than one field. */
  datatype Outcome =
    | Skipped
    | AlignFailed(processId: Option<string>, error: AlignError)
    | Mapped(processId: Option<string>, accession: string, referenceLength: Option<nat>, mapping: Mapping)

  /** The records the step aligns: nuc is set and marker_code is COI-5P. */
  predicate IsBarcode(data: Record) {
    "nuc" in data && Get(data, "marker_code") == Some("COI-5P")
  }

  /** $reference_seq[$ref_acc]: an accession without an entry, or with a null sequence, reads as
      the empty string. */
  function ReferenceSequence(catalog: Catalog, accession: string): string {
    if accession in catalog.sequences then catalog.sequences[accession].GetOr("") else ""
  }

  /** $reference_len[$ref_acc], null when the accession has no entry. */
  function ReferenceLength(catalog: Catalog, accession: string): Option<nat> {
    if accession in catalog.lengths then Some(catalog.lengths[accession]) else None
  }

  /** The body of the `if (isset($data->nuc) && ...)` block, with cpp_align as a parameter. */
  function AlignRecord(align: Aligner, catalog: Catalog, data: Record): Outcome {
    if !IsBarcode(data) then Skipped
    else
      var accession := SelectReference(data, catalog);
      var seq1 := PhpClean.SwaCleanSequence(ReferenceSequence(catalog, accession));
      var seq2 := PhpClean.SwaCleanSequence(data["nuc"]);
      match MappingOf(align, seq1, seq2)
      case Failure(e) => AlignFailed(Get(data, "processid"), e)
      case Success(m) => Mapped(Get(data, "processid"), accession, ReferenceLength(catalog, accession), m)
  }

  /** One barcode record, computed step by step as the source does. */
  method AlignBarcode(align: Aligner, catalog: Catalog, data: Record) returns (outcome: Outcome)
    ensures outcome == AlignRecord(align, catalog, data)
  {
    if !IsBarcode(data) {
      return Skipped;
    }
    var refAcc := SelectReference(data, catalog);
    var seq1 := ReferenceSequence(catalog, refAcc);
    seq1 := PhpClean.SwaCleanSequence(seq1);
    var seq2 := PhpClean.SwaCleanSequence(data["nuc"]);
    var spans := MapBoundary(align, seq1, seq2);
    match spans {
      case Failure(e) => outcome := AlignFailed(Get(data, "processid"), e);
      case Success(m) => outcome := Mapped(Get(data, "processid"), refAcc, ReferenceLength(catalog, refAcc), m);
    }
  }

  /** The fields of a line: trim, then explode at tabs. */
  function TsvRow(line: string): seq<string> {
    Split(Trim(line), '\t')
  }

  /** The header of the barcode file: its first line, when that line has more than one field. */
  function Headings(lines: seq<string>): seq<string> {
    if lines != [] && |TsvRow(lines[0])| > 1 then TsvRow(lines[0]) else []
  }

  /** The outcome of a data line: none when it has at most one field. */
  function LineOutcomes(align: Aligner, catalog: Catalog, headings: seq<string>, row: seq<string>): seq<Outcome> {
    if |row| > 1 then [AlignRecord(align, catalog, RowFields(headings, row))] else []
  }

  /** The outcomes of the data lines, in order. */
  function ProcessLines(align: Aligner, catalog: Catalog, headings: seq<string>, lines: seq<string>): seq<Outcome> {
    if lines == [] then []
    else
      ProcessLines(align, catalog, headings, lines[..|lines| - 1]) + LineOutcomes(align, catalog, headings, TsvRow(lines[|lines| - 1]))
  }

  /** The outcomes of the whole barcode file: the first line is the header, the rest data. */
  function ProcessFile(align: Aligner, catalog: Catalog, lines: seq<string>): seq<Outcome> {
    if lines == [] then [] else ProcessLines(align, catalog, Headings(lines), lines[1..])
  }

  /** The fields of each line. */
  function Rows(lines: seq<string>): (rows: seq<seq<string>>)
    ensures |rows| == |lines|
  {
    seq(|lines|, k requires 0 <= k < |lines| => TsvRow(lines[k]))
  }

  /** The indices of the rows with more than one field. */
  function DataPositions(rows: seq<seq<string>>): seq<nat> {
    if rows == [] then []
    else
      var n := |rows| - 1;
      DataPositions(rows[..n]) + (if |rows[n]| > 1 then [n] else [])
  }

  /** DataPositions lists exactly the rows with more than one field, in increasing order. */
  lemma {:induction false} DataPositionsSpec(rows: seq<seq<string>>)
    ensures var ks := DataPositions(rows);
      && (forall i :: 0 <= i < |ks| ==> ks[i] < |rows| && |rows[ks[i]]| > 1)
      && (forall i, j :: 0 <= i < j < |ks| ==> ks[i] < ks[j])
      && (forall k :: 0 <= k < |rows| && |rows[k]| > 1 ==> k in ks)
  {
    if rows != [] {
      var n := |rows| - 1;
      var front := DataPositions(rows[..n]);
      DataPositionsSpec(rows[..n]);
      var tail: seq<nat> := if |rows[n]| > 1 then [n] else [];
      var ks := front + tail;
      assert ks == DataPositions(rows);
      forall i | 0 <= i < |ks| ensures ks[i] < |rows| && |rows[ks[i]]| > 1 {
        if i < |front| {
          assert ks[i] == front[i];
          assert rows[front[i]] == rows[..n][front[i]];
        }
      }
      forall i, j | 0 <= i < j < |ks| ensures ks[i] < ks[j] {
        if j >= |front| {
          assert ks[i] == front[i] && front[i] < n;
        }
      }
      forall k | 0 <= k < |rows| && |rows[k]| > 1 ensures k in ks {
        if k < n {
          assert rows[..n][k] == rows[k];
          assert k in front;
        } else {
          assert ks[|front|] == n;
        }
      }
    }
  }

  /** The data lines yield one outcome each, in file order: the i-th outcome is the record of
      the i-th line with more than one field; lines with at most one field yield nothing. */
  lemma {:induction false} ProcessLinesInOrder(align: Aligner, catalog: Catalog, headings: seq<string>, lines: seq<string>)
    ensures var out := ProcessLines(align, catalog, headings, lines);
      var rows := Rows(lines);
      var ks := DataPositions(rows);
      && |out| == |ks|
      && forall i :: 0 <= i < |out| ==> ks[i] < |rows| && out[i] == AlignRecord(align, catalog, RowFields(headings, rows[ks[i]]))
  {
    if lines != [] {
      var n := |lines| - 1;
      ProcessLinesInOrder(align, catalog, headings, lines[..n]);
      DataPositionsSpec(Rows(lines[..n]));
      assert Rows(lines[..n]) == Rows(lines)[..n];
      assert Rows(lines)[n] == TsvRow(lines[n]);
    }
  }

  /** The whole file: the i-th outcome comes from the i-th data row (a line after the header
      with more than one field), read with the header's headings, and every data row gives one. */
  lemma ProcessFileInOrder(align: Aligner, catalog: Catalog, lines: seq<string>)
    requires lines != []
    ensures var out := ProcessFile(align, catalog, lines);
      var data := Rows(lines[1..]);
      var ks := DataPositions(data);
      && |out| == |ks|
      && (forall i, j :: 0 <= i < j < |ks| ==> ks[i] < ks[j])
      && (forall k :: 0 <= k < |data| && |data[k]| > 1 ==> k in ks)
      && forall i :: 0 <= i < |out| ==>
           ks[i] < |data| && |data[ks[i]]| > 1 &&
           out[i] == AlignRecord(align, catalog, RowFields(Headings(lines), data[ks[i]]))
  {
    ProcessLinesInOrder(align, catalog, Headings(lines), lines[1..]);
    DataPositionsSpec(Rows(lines[1..]));
  }

  /** One more data line. */
  lemma ProcessLinesStep(align: Aligner, catalog: Catalog, headings: seq<string>, lines: seq<string>, k: nat)
    requires 1 <= k < |lines|
    ensures ProcessLines(align, catalog, headings, lines[1..k + 1]) ==
      ProcessLines(align, catalog, headings, lines[1..k]) + LineOutcomes(align, catalog, headings, TsvRow(lines[k]))
  {
    assert lines[1..k + 1] == lines[1..k] + [lines[k]];
    ProcessLinesSnoc(align, catalog, headings, lines[1..k], lines[k]);
  }

  /** A line appended to the file appends its outcomes. */
  lemma ProcessLinesSnoc(align: Aligner, catalog: Catalog, headings: seq<string>, lines: seq<string>, line: string)
    ensures ProcessLines(align, catalog, headings, lines + [line]) ==
      ProcessLines(align, catalog, headings, lines) + LineOutcomes(align, catalog, headings, TsvRow(line))
  {
    assert (lines + [line])[..|lines|] == lines;
  }

  /** What the read loop has built after the first `rowCount` lines. */
  predicate ReadSoFar(align: Aligner, catalog: Catalog, lines: seq<string>, rowCount: nat,
                      headings: seq<string>, outcomes: seq<Outcome>)
    requires rowCount <= |lines|
  {
    if rowCount == 0 then headings == [] && outcomes == []
    else headings == Headings(lines) && outcomes == ProcessLines(align, catalog, headings, lines[1..rowCount])
  }

  /** The read loop of step 2 over the lines of the barcode file. */
  method ProcessBarcodes(align: Aligner, catalog: Catalog, lines: seq<string>) returns (outcomes: seq<Outcome>)
    ensures outcomes == ProcessFile(align, catalog, lines)
  {
    var headings: seq<string> := [];
    outcomes := [];
    for rowCount := 0 to |lines|
      invariant ReadSoFar(align, catalog, lines, rowCount, headings, outcomes)
    {
      headings, outcomes := ReadLine(align, catalog, lines, rowCount, headings, outcomes);
    }
    assert lines != [] ==> lines[1..|lines|] == lines[1..];
  }

  /** One pass of the read loop: the first line sets the headings, any later one is processed. */
  method ReadLine(align: Aligner, catalog: Catalog, lines: seq<string>, rowCount: nat,
                  headings: seq<string>, outcomes: seq<Outcome>)
    returns (headings': seq<string>, outcomes': seq<Outcome>)
    requires rowCount < |lines| && ReadSoFar(align, catalog, lines, rowCount, headings, outcomes)
    ensures ReadSoFar(align, catalog, lines, rowCount + 1, headings', outcomes')
  {
    headings', outcomes' := headings, outcomes;
    var row := TsvRow(lines[rowCount]);
    if rowCount == 0 {
      if |row| > 1 {
        headings' := row;
      }
    } else {
      ProcessLinesStep(align, catalog, headings, lines, rowCount);
      var more := ProcessRow(align, catalog, headings, row);
      outcomes' := outcomes + more;
    }
  }

  /** A data line: skipped unless it has more than one field, else deserialized and aligned. */
  method ProcessRow(align: Aligner, catalog: Catalog, headings: seq<string>, row: seq<string>) returns (more: seq<Outcome>)
    ensures more == LineOutcomes(align, catalog, headings, row)
  {
    more := [];
    if |row| > 1 {
      var data := DeserializeRow(headings, row);
      var outcome := AlignBarcode(align, catalog, data);
      more := [outcome];
    }
  }

  /** Exactly the COI-5P records with a sequence are aligned. */
  lemma SkipsExactlyNonBarcodes(align: Aligner, catalog: Catalog, data: Record)
    ensures AlignRecord(align, catalog, data).Skipped? <==> !IsBarcode(data)
  {
    match MappingOf(align, PhpClean.SwaCleanSequence(ReferenceSequence(catalog, SelectReference(data, catalog))),
                    PhpClean.SwaCleanSequence(Get(data, "nuc").GetOr(""))) {
      case Failure(_) =>
      case Success(_) =>
    }
  }

  /** With the Smith-Waterman aligner every barcode record is mapped, against the selected
      accession, and the length printed beside it is the raw length of that accession's
      reference sequence in the loaded catalog, before cleaning. */
  lemma BarcodeMapped(align: Aligner, headings: seq<string>, rows: seq<seq<string>>, data: Record)
    requires RunsSmithWaterman(align) && IsBarcode(data)
    ensures var catalog := LoadRows(headings, rows);
      var outcome := AlignRecord(align, catalog, data);
      && outcome.Mapped?
      && outcome.accession == SelectReference(data, catalog)
      && (outcome.accession in catalog.sequences ==>
            outcome.referenceLength == Some(|ReferenceSequence(catalog, outcome.accession)|))
  {
    var catalog := LoadRows(headings, rows);
    var accession := SelectReference(data, catalog);
    MappingInBounds(align, PhpClean.SwaCleanSequence(ReferenceSequence(catalog, accession)),
                    PhpClean.SwaCleanSequence(data["nuc"]));
    LoadLengths(headings, rows);
  }
}
