# bold-fast-align, modelled in Dafny

bold-fast-align places DNA barcodes from the BOLD public data release onto reference
sequences. `parse_cpp.php` first loads a catalog of reference accessions per taxon from a CSV
file. For every COI-5P barcode in the BOLD TSV file it then:

- picks the reference for the barcode's family, order, class, phylum or kingdom (the first of
  these the record sets), falling back to Drosophila `NC_046603`;
- cleans both sequences;
- aligns the first and the last 100 bases of the barcode against the reference with the C++
  program `src/align.cpp`.

That program cleans its two arguments, runs a Smith-Waterman local alignment and prints
`s1,e1 s2,e2`: zero-based spans whose end is inclusive.

The Dafny project models each of these pieces, one module per piece:

| module | file | models |
|---|---|---|
| `Wrappers` | wrappers.dfy | `Option` (PHP null, a failing `shell_exec`) and `Result` (a thrown exception) |
| `Text` | text.dfy | character classes, per-character rewriting (`FlatMap`), `explode` (`Split`), PHP `trim`, integers as text and PHP's `(int)` cast |
| `PhpClean` | php_clean.dfy | `swa_clean_sequence`, the chain of `strtoupper` and five `preg_replace` calls |
| `CppClean` | cpp_clean.dfy | `clean_sequence`, a loop method proved against a per-character function |
| `SmithWaterman` | smith_waterman.dfy | `smith_waterman`: the matrix fill over two `array2`s, the running maximum and the traceback loop |
| `AlignProtocol` | align_protocol.dfy | the line `main` prints, and `cpp_align` parsing it back |
| `Catalog` | catalog.dfy | step 1: the row deserializer and the load loop filling `$reference_*`, `$reference_seq` and `$reference_len` |
| `Selection` | selection.dfy | the if/elseif chain choosing `$ref_acc` |
| `BoundaryMapper` | boundary_mapper.dfy | the two-window alignment and the `$spans` composition |
| `Pipeline` | pipeline.dfy | step 2: the TSV read loop tying the pieces together |

The Smith-Waterman core is specified cell by cell:

- `Entry(i, j)` is the score and predecessor the fill loop stores at `H[i][j]` and `P[i][j]`.
- `Best(i, j)` is `(max_score, max_i, max_j)` once the loop has visited cell `(i, j)`.
- `Trace(i, j)` is where the traceback stops.

The methods over arrays are proved to compute exactly these. The lemmas state what they
mean: the first strict maximum in row-major order, the tie order of predecessors, spans inside
the sequences, and the score bound.

The catalog load is specified as a fold (`FileAll`). Each data row contributes one filing: its
rank, key, accession and sequence. The load loop is proved to compute the fold, and lemmas over
the fold cover:

- overwriting: the last row filed under a key wins;
- the kingdom table, which the load never writes;
- the length table.

Inside `cpp_align`, `shell_exec` is a parameter (`Exec`). The binary that parameter stands
for is modelled too (`Binary`).

`cpp_align` is also a parameter of the boundary mapper (`Aligner`). This lets the mapper's error
path be stated and proved. `RunsSmithWaterman` names the aligner that the real binary gives.

The two cleaners do not agree:

- The comment on `swa_clean_sequence` (parse_cpp.php:19) says it matches what the C++ does. The code does not: an
  unknown character such as `X` passes through it upper-cased, while `clean_sequence` drops it
  (`CppClean.CleanersDisagree`).
- What does hold is that `clean_sequence` after `swa_clean_sequence` equals `clean_sequence`
  alone (`CppClean.CleanedAfterSwaClean`).

## Model

| member | source | states |
|---|---|---|
| PhpClean.SwaCleanPointwise | parse_cpp.php:20-38 | `SwaCleanSequence`, the `strtoupper` and five-stage replacement chain, rewrites each input character independently and in order, so output order follows input order |
| PhpClean.SwaCleanAlphabet | parse_cpp.php:22-35 | the output has no ASCII lower-case letter, digit, whitespace, line break, `-`, `I`, or ambiguity code other than `N` |
| PhpClean.SwaCleanShorter | parse_cpp.php:20-38 | the output is never longer than the input |
| PhpClean.SwaCleanIdempotent | parse_cpp.php:20-38 | cleaning a cleaned sequence changes nothing |
| PhpClean.SwaCleanChar | parse_cpp.php:22-35 | one character becomes at most one character |
| CppClean.CleanSequence | src/align.cpp:24-51 | the loop appends, for each input character in order, its cleaned form (`Cleaned`) |
| CppClean.CleanChar | src/align.cpp:28-48 | one character becomes at most one character |
| CppClean.CleanedAlphabet | src/align.cpp:28-48 | the output consists only of A, C, G, T and N |
| CppClean.CleanedShorter | src/align.cpp:24-51 | the output is never longer than the input |
| CppClean.CleanedFixpoint | src/align.cpp:28-48 | a string is left unchanged exactly when all its characters are A, C, G, T or N |
| CppClean.CleanedIdempotent | src/align.cpp:24-51 | cleaning a cleaned sequence changes nothing |
| CppClean.CleanedAfterSwaClean | parse_cpp.php:19 | `clean_sequence` after `swa_clean_sequence` gives the same as `clean_sequence` alone |
| CppClean.CleanersDisagree | parse_cpp.php:19 | a character that is not a line break and that, once upper-cased, is not whitespace, a digit, `-`, `I`, an ambiguity code or a nucleotide, is kept upper-cased by `swa_clean_sequence` and dropped by `clean_sequence` |
| CppClean.SwaCleanKeepsUnknownLetter | parse_cpp.php:19 | for example `"x"` becomes `"X"` under `swa_clean_sequence` and `""` under `clean_sequence` |
| SmithWaterman.Substitution | src/align.cpp:71-76 | +3 exactly when the upper-cased characters are equal, else -1 |
| SmithWaterman.ChooseSpec | src/align.cpp:82-96 | the cell is the maximum of 0 and the three candidates; the predecessor is D, then U, then L under strict `>`, and `' '` exactly when the cell is 0 |
| SmithWaterman.EntrySpec | src/align.cpp:59-99 | every cell of H is at least 0, and its predecessor agrees with its score |
| SmithWaterman.ComputeCell | src/align.cpp:69-96 | the candidate scores and running maximum give exactly the cell `Entry(i, j)` |
| SmithWaterman.FillCell | src/align.cpp:69-99 | storing one cell extends the filled region by that cell and changes nothing else |
| SmithWaterman.FillRow | src/align.cpp:68-107 | the inner loop fills row i and updates the running maximum to `Best(i, n)`, where n is the length of `seq2` |
| SmithWaterman.FillMatrices | src/align.cpp:58-108 | the nested loops fill every cell and leave `(max_score, max_i, max_j)` equal to `Best` over the whole matrix |
| SmithWaterman.TraceBack | src/align.cpp:111-126 | the traceback loop stops where `Trace` says |
| SmithWaterman.Trace | src/align.cpp:111-126 | the traceback never increases i or j, and it stops on row 0, column 0 or a zero cell |
| SmithWaterman.SmithWaterman | src/align.cpp:54-136 | the result is `Align` of its arguments |
| SmithWaterman.BestIsFirstMaximum | src/align.cpp:101-106 | the running maximum is the largest cell visited so far, at the first cell in row-major order that reaches it |
| SmithWaterman.AlignIsFirstMaximum | src/align.cpp:62-106 | `max_score` is the maximum over all of H, and `(seq1_end + 1, seq2_end + 1)` is the first cell in row-major order attaining it |
| SmithWaterman.AlignZero | src/align.cpp:62-64 | when nothing scores above 0 the result is `(0, 0, -1, 0, -1)` |
| SmithWaterman.AlignEmpty | src/align.cpp:128-133 | an empty input yields `seq1 = (0, -1)` and `seq2 = (0, -1)` |
| SmithWaterman.AlignSpansInBounds | src/align.cpp:111-133 | with a positive score, `0 <= start <= end < length` for both sequences |
| SmithWaterman.ScoreBound | src/align.cpp:67-99 | no cell scores above 3 * min(i, j) |
| SmithWaterman.AlignScoreBound | src/align.cpp:62-106 | the score is at most 3 * min(m, n) |
| AlignProtocol.RenderShape | src/align.cpp:150-151 | the printed line trims to two comma-joined pairs separated by exactly one space |
| AlignProtocol.ParseAlignOutput | parse_cpp.php:51-70 | null output is the execution failure; otherwise the trimmed text is rejected exactly when it does not split into two space-separated parts, with that text in the error |
| AlignProtocol.ParseRender | parse_cpp.php:57-70 | parsing the line `main` prints recovers exactly the four printed integers |
| AlignProtocol.CppAlignBinary | parse_cpp.php:41-71 | through the modelled binary, `cpp_align` returns the spans of the Smith-Waterman alignment of the cleaned arguments |
| AlignProtocol.AlignBinary | src/align.cpp:138-154 | the binary prints `Render` of the alignment of its two cleaned arguments |
| AlignProtocol.CppAlign | parse_cpp.php:41-71 | running the binary and parsing its output succeeds with those spans |
| Catalog.DeserializeRow | parse_cpp.php:110-118 | the loop over the fields builds `RowFields` |
| Catalog.PresentIsTrimTest | parse_cpp.php:114 | a field is kept exactly when `trim` leaves something and it is not `"None"` |
| Catalog.RowFieldsDomain | parse_cpp.php:112-118 | a property is set exactly when some column with that heading holds a kept value, so blank and `"None"` fields are absent |
| Catalog.RowFieldsValue | parse_cpp.php:112-118 | a set property holds the last kept column with that heading |
| Catalog.RowKey | parse_cpp.php:120-126 | the key `KeyOf` files a data row under is its last present `bold_taxon` column, else its last present `taxon` column, else `""` (PHP's null key) |
| Catalog.RankOf | parse_cpp.php:128-146 | `family`, `order` and `class` select their own table and anything else selects phylum; never kingdom |
| Catalog.Load | parse_cpp.php:110-149 | the load loop computes the fold `LoadRows` of its rows |
| Catalog.FileEffect | parse_cpp.php:128-149 | one filing changes only its rank's table at its key, plus the sequence and length entries of its accession |
| Catalog.FileAllDomain | parse_cpp.php:128-146 | a key is in a table exactly when some filing hit it |
| Catalog.FileAllLastWins | parse_cpp.php:128-146 | a key holds the accession of the last filing that hit it |
| Catalog.LoadTableDomain | parse_cpp.php:110-149 | a key is in a rank table exactly when some data row is filed under it |
| Catalog.LoadLastRowWins | parse_cpp.php:110-149 | a later row with the same rank and key overwrites an earlier one |
| Catalog.LoadLeavesKingdomEmpty | parse_cpp.php:128-146 | `$reference_kingdom` is never written |
| Catalog.LoadLengths | parse_cpp.php:148-149 | `$reference_len` has the same keys as `$reference_seq`, and each value is the raw length of that sequence |
| Catalog.LoadRefsHaveSequences | parse_cpp.php:131-148 | every non-null accession in a rank table has a `$reference_seq` entry |
| Selection.Lookup | parse_cpp.php:208-211 | `isset($table[$key])` holds exactly when the key is there with a non-null accession, which is then returned |
| Selection.SelectFirstPresent | parse_cpp.php:204-240 | `SelectReference`, the if/elseif chain, looks up only the first of family, order, class, phylum and kingdom that the record sets, in that rank's table; a miss gives `NC_046603` |
| Selection.FirstPresentSpec | parse_cpp.php:206-240 | the consulted rank is set and every rank before it is unset; none is consulted exactly when none is set |
| Selection.SelectShortCircuit | parse_cpp.php:206-218 | family set but unmatched gives `NC_046603`, whatever the order, class, phylum and kingdom tables hold |
| Selection.SelectNoTaxon | parse_cpp.php:204-240 | a record without any of the five fields gets `NC_046603` |
| Selection.SelectResult | parse_cpp.php:204-240 | the chosen accession is the default or an accession held in some rank table |
| Selection.SelectKingdomIsDefault | parse_cpp.php:234-240 | against a loaded catalog, a record whose first set field is kingdom gets `NC_046603` |
| BoundaryMapper.Prefix | parse_cpp.php:255 | the prefix window is the first min(100, n) characters |
| BoundaryMapper.Suffix | parse_cpp.php:264-265 | the suffix window is the last min(100, n) characters |
| BoundaryMapper.MapBoundary | parse_cpp.php:247-270 | the `$spans` array assigned corner by corner yields `MappingOf`: reference span (A.seq1 start, B.seq1 end), query span (A.seq2 start, n - sufLen + B.seq2 end), or the first exception |
| BoundaryMapper.ShortQueryMapsWhole | parse_cpp.php:255-270 | when n <= 100, both windows are the whole query, the offset is 0, and the mapping is one alignment's spans |
| BoundaryMapper.MappingErrors | parse_cpp.php:257-277 | the first failing `cpp_align` call decides the error, and the mapping succeeds exactly when both calls do |
| BoundaryMapper.BinaryRunsSmithWaterman | parse_cpp.php:41-71 | `cpp_align` over the modelled binary is the Smith-Waterman aligner |
| BoundaryMapper.MappingInBounds | parse_cpp.php:255-270 | with that aligner and both windows matching, the reference span lies in the reference, the query start in the prefix window and the query end in the suffix window |
| BoundaryMapper.MappingNoMatch | parse_cpp.php:255-270 | with neither window matching, the mapping is `(0, -1)` on the reference and `(0, n - min(100, n) - 1)` on the query |
| Pipeline.AlignBarcode | parse_cpp.php:201-278 | one record is selected, cleaned and mapped as `AlignRecord` says |
| Pipeline.ProcessRow | parse_cpp.php:178-199 | a line with at most one field yields nothing; any other is deserialized and aligned |
| Pipeline.ReadLine | parse_cpp.php:176-282 | the first line sets the headings, and every later line appends its outcomes |
| Pipeline.ProcessBarcodes | parse_cpp.php:176-289 | the read loop yields `ProcessFile` of the lines: the outcomes of the data lines in file order |
| Pipeline.DataPositionsSpec | parse_cpp.php:178-182 | the positions listed are exactly the lines whose `explode` gives more than one field, in increasing order |
| Pipeline.ProcessLinesInOrder | parse_cpp.php:174-283 | the data lines give one outcome each, the i-th outcome being the record of the i-th line with more than one field |
| Pipeline.ProcessFileInOrder | parse_cpp.php:174-283 | in `ProcessFile`, after the header line, every line with more than one field gives exactly one outcome, in file order, read with the header's headings; other lines give none |
| Pipeline.SkipsExactlyNonBarcodes | parse_cpp.php:201 | exactly the records with `nuc` set and marker code COI-5P are aligned |
| Pipeline.BarcodeMapped | parse_cpp.php:204-273 | with the Smith-Waterman aligner every barcode is mapped against the selected accession, and the length printed beside it is the raw length of that accession's sequence |
| Text.Split | parse_cpp.php:58 | `explode` yields one more part than there are separators, and no part contains one |
| Text.SplitAt | parse_cpp.php:64-65 | exploding `x . sep . y`, with `x` free of `sep`, gives `x` followed by the parts of `y` |
| Text.TrimBlank | parse_cpp.php:114 | `trim` leaves nothing exactly when every character is one it strips |
| Text.CastIntToString | parse_cpp.php:66-69 | PHP's `(int)` cast of a printed integer gives back that integer |

## Left out

- File reading is not modelled: the `fopen`/`fgetcsv`/`fgets` loops, the file-exists check with `exit(1)`, and the `row_count > 10` testing cutoff. Step 1 receives its header row and the `fgetcsv` fields of its data rows. Step 2 receives the lines of the TSV file.
- Catalog.Load: the header is passed in, not taken from the first row. A CSV file whose first line is blank, and so never sets `$headings`, is not modelled.
- Catalog.RowFields ignores columns beyond the header row. PHP would index an undefined heading there.
- `escapeshellarg` and the command line are not modelled: the binary receives the two strings unchanged. `argv` handling is left out too, including the usage message when `argc != 3`.
- The `echo` output lines and exception messages are not modelled. `Pipeline.Outcome` carries what is printed (process id, accession, reference length and spans) but not its formatting.
- src/benchmark.php is not part of this model. It is a timing script with its own copy of `cpp_align`.
- Text.CastInt models `(int)` on an optional sign followed by digits. Leading whitespace, exponents and overflow to float are not modelled.
- Strings are sequences of code points. The C++ program works on bytes, and invalid UTF-8 under `preg_replace` with `/u` is not modelled.
- SmithWaterman: C++ `int` overflow is not modelled, because integers are unbounded. `AlignScoreBound` shows the score is at most 3 * min(m, n).
- BoundaryMapper.MappingOf: query spans are positions in the string `clean_sequence` makes of each window. When the barcode holds characters that `swa_clean_sequence` keeps but `clean_sequence` drops (`CppClean.CleanersDisagree`), those positions can be shifted relative to the PHP string. The model computes the offsets exactly as the source does.
