/** Step 1 of parse_cpp.php: the reference catalog. Each CSV data row is turned into a record of
    its non-blank fields, then its accession is filed under the taxon key of its rank, and its
    sequence and that sequence's length are recorded by accession. */
module Catalog {
  import opened Wrappers
  import opened Text

  /** A deserialized row: the stdclass whose properties are named by the header row. */
  type Record = map<string, string>

  /** A value PHP may hold as null: a rank table entry for a row without ref_accession, or the
      sequence of a row without ref_sequence. */
  type Slot = Option<string>

  datatype Rank = Family | Order | Class | Phylum | Kingdom

  /** The $reference_* tables. */
  datatype Catalog = Catalog(
    familyRefs: map<string, Slot>,
    orderRefs: map<string, Slot>,
    classRefs: map<string, Slot>,
    phylumRefs: map<string, Slot>,
    kingdomRefs: map<string, Slot>,
    sequences: map<string, Slot>,
    lengths: map<string, nat>)

  const EmptyCatalog := Catalog(map[], map[], map[], map[], map[], map[], map[])

  function Table(catalog: Catalog, rank: Rank): map<string, Slot> {
    match rank
    case Family => catalog.familyRefs
    case Order => catalog.orderRefs
    case Class => catalog.classRefs
    case Phylum => catalog.phylumRefs
    case Kingdom => catalog.kingdomRefs
  }

  /** A field value is kept when it is not blank and is not the literal "None". */
  predicate Present(v: string) {
    !IsBlank(v) && v != "None"
  }

  /** Present is the test `trim($row[$k]) != '' and $row[$k] != 'None'`. */
  lemma PresentIsTrimTest(v: string)
    ensures Present(v) <==> Trim(v) != "" && v != "None"
  {
    TrimBlank(v);
  }

  function Get(data: Record, name: string): Option<string> {
    if name in data then Some(data[name]) else None
  }

  /** The record built from the first |row| fields by the foreach over the row: each present
      field sets the property its heading names, later columns overwriting earlier ones. */
  function RowFields(headings: seq<string>, row: seq<string>): Record {
    if row == [] then map[]
    else
      var k := |row| - 1;
      var data := RowFields(headings, row[..k]);
      if k < |headings| && Present(row[k]) then data[headings[k] := row[k]] else data
  }

  /** The inline deserializer of the load loop. */
  method DeserializeRow(headings: seq<string>, row: seq<string>) returns (data: Record)
    ensures data == RowFields(headings, row)
  {
    data := map[];
    for k := 0 to |row|
      invariant data == RowFields(headings, row[..k])
    {
      assert row[..k + 1][..k] == row[..k];
      if k < |headings| && Present(row[k]) {
        data := data[headings[k] := row[k]];
      }
    }
    assert row[..|row|] == row;
  }

  /** Column k of the row sets property `name`. */
  predicate SetsField(headings: seq<string>, row: seq<string>, k: int, name: string) {
    0 <= k < |row| && k < |headings| && headings[k] == name && Present(row[k])
  }

  /** A property is set exactly when some column with that heading is present. */
  lemma {:induction false} RowFieldsDomain(headings: seq<string>, row: seq<string>, name: string)
    ensures name in RowFields(headings, row) <==> exists k :: SetsField(headings, row, k, name)
  {
    if row != [] {
      var last := |row| - 1;
      var prefix := row[..last];
      RowFieldsDomain(headings, prefix, name);
      if SetsField(headings, row, last, name) {
        assert RowFields(headings, row) == RowFields(headings, prefix)[name := row[last]];
      } else {
        assert name in RowFields(headings, row) <==> name in RowFields(headings, prefix);
        if name in RowFields(headings, prefix) {
          var k :| SetsField(headings, prefix, k, name);
          assert SetsField(headings, row, k, name);
        }
        if k :| SetsField(headings, row, k, name) {
          assert SetsField(headings, prefix, k, name);
        }
      }
    }
  }

  /** A set property holds the value of the last present column with that heading. */
  lemma {:induction false} RowFieldsValue(headings: seq<string>, row: seq<string>, name: string, k: int)
    requires SetsField(headings, row, k, name)
    requires forall k' :: k < k' < |row| ==> !SetsField(headings, row, k', name)
    ensures name in RowFields(headings, row) && RowFields(headings, row)[name] == row[k]
  {
    var last := |row| - 1;
    var prefix := row[..last];
    if k < last {
      assert !SetsField(headings, row, last, name);
      forall k' | k < k' < |prefix| ensures !SetsField(headings, prefix, k', name) {
        assert !SetsField(headings, row, k', name);
      }
      RowFieldsValue(headings, prefix, name, k);
    }
  }

  /** The switch on bold_taxon_rank: family, order and class have their own tables, anything
      else (phylum, kingdom, a missing rank, any other label) falls to phylum. */
  function RankOf(rankLabel: Option<string>): (rank: Rank)
    ensures rank != Kingdom
    ensures rankLabel == Some("family") <==> rank == Family
    ensures rankLabel == Some("order") <==> rank == Order
    ensures rankLabel == Some("class") <==> rank == Class
  {
    match rankLabel
    case Some("family") => Family
    case Some("order") => Order
    case Some("class") => Class
    case _ => Phylum
  }

  /** $key: bold_taxon when set, else taxon; PHP turns a null key into "". */
  function KeyOf(data: Record): string {
    if "bold_taxon" in data then data["bold_taxon"]
    else if "taxon" in data then data["taxon"]
    else ""
  }

  /** Column k is the last column of the row that sets property `name`. */
  predicate LastSets(headings: seq<string>, row: seq<string>, k: int, name: string) {
    SetsField(headings, row, k, name) && forall k' :: k < k' < |row| ==> !SetsField(headings, row, k', name)
  }

  /** The key a data row is filed under: its last present bold_taxon column, else its last
      present taxon column, else "". */
  lemma RowKey(headings: seq<string>, row: seq<string>)
    requires |row| > 1
    ensures var key := RowFiling(headings, row).value.key;
      && (forall k :: LastSets(headings, row, k, "bold_taxon") ==> key == row[k])
      && (forall k :: (forall b :: !SetsField(headings, row, b, "bold_taxon")) && LastSets(headings, row, k, "taxon") ==> key == row[k])
      && ((forall k :: !SetsField(headings, row, k, "bold_taxon") && !SetsField(headings, row, k, "taxon")) ==> key == "")
  {
    RowFieldsDomain(headings, row, "bold_taxon");
    RowFieldsDomain(headings, row, "taxon");
    forall k | LastSets(headings, row, k, "bold_taxon") ensures RowFiling(headings, row).value.key == row[k] {
      RowFieldsValue(headings, row, "bold_taxon", k);
    }
    forall k | (forall b :: !SetsField(headings, row, b, "bold_taxon")) && LastSets(headings, row, k, "taxon")
      ensures RowFiling(headings, row).value.key == row[k]
    {
      RowFieldsValue(headings, row, "taxon", k);
    }
  }

  /** The array key a (possibly null) accession is stored under. */
  function AccessionKey(accession: Slot): string {
    accession.GetOr("")
  }

  /** strlen of a (possibly null) sequence. */
  function SlotLength(sequence: Slot): nat {
    |sequence.GetOr("")|
  }

  /** Files `accession` under `key` in the table of `rank`, and records `sequence` and its length
      under the accession. */
  function File(catalog: Catalog, rank: Rank, key: string, accession: Slot, sequence: Slot): Catalog {
    var filed := match rank
      case Family => catalog.(familyRefs := catalog.familyRefs[key := accession])
      case Order => catalog.(orderRefs := catalog.orderRefs[key := accession])
      case Class => catalog.(classRefs := catalog.classRefs[key := accession])
      case Phylum => catalog.(phylumRefs := catalog.phylumRefs[key := accession])
      case Kingdom => catalog.(kingdomRefs := catalog.kingdomRefs[key := accession]);
    filed.(sequences := filed.sequences[AccessionKey(accession) := sequence],
           lengths := filed.lengths[AccessionKey(accession) := SlotLength(sequence)])
  }

  /** What one line of the CSV files: its rank, its taxon key, its accession and its sequence. A
      line with at most one field (a blank line) files nothing. */
  datatype Filing = Filing(rank: Rank, key: string, accession: Slot, sequence: Slot)

  function RowFiling(headings: seq<string>, row: seq<string>): Option<Filing> {
    if |row| > 1 then
      var data := RowFields(headings, row);
      Some(Filing(RankOf(Get(data, "bold_taxon_rank")), KeyOf(data), Get(data, "ref_accession"), Get(data, "ref_sequence")))
    else None
  }

  function Filings(headings: seq<string>, rows: seq<seq<string>>): (filings: seq<Option<Filing>>)
    ensures |filings| == |rows|
    ensures forall k :: 0 <= k < |rows| ==> filings[k] == RowFiling(headings, rows[k])
  {
    seq(|rows|, k requires 0 <= k < |rows| => RowFiling(headings, rows[k]))
  }

  /** The tables after filing the lines in order, each filing overwriting earlier ones. */
  function FileAll(filings: seq<Option<Filing>>): Catalog {
    if filings == [] then EmptyCatalog
    else
      var previous := FileAll(filings[..|filings| - 1]);
      match filings[|filings| - 1]
      case None => previous
      case Some(f) => File(previous, f.rank, f.key, f.accession, f.sequence)
  }

  /** The tables after the load loop has read the data rows in order. */
  function LoadRows(headings: seq<string>, rows: seq<seq<string>>): Catalog {
    FileAll(Filings(headings, rows))
  }

  /** The load loop of parse_cpp.php over the data rows that follow the header row. */
  method Load(headings: seq<string>, rows: seq<seq<string>>) returns (catalog: Catalog)
    ensures catalog == LoadRows(headings, rows)
  {
    var referenceFamily: map<string, Slot> := map[];
    var referenceOrder: map<string, Slot> := map[];
    var referenceClass: map<string, Slot> := map[];
    var referencePhylum: map<string, Slot> := map[];
    var referenceKingdom: map<string, Slot> := map[];
    var referenceSeq: map<string, Slot> := map[];
    var referenceLen: map<string, nat> := map[];
    ghost var filings := Filings(headings, rows);

    var n := 0;
    while n < |rows|
      invariant n <= |rows|
      invariant Catalog(referenceFamily, referenceOrder, referenceClass, referencePhylum,
                        referenceKingdom, referenceSeq, referenceLen) == FileAll(filings[..n])
    {
      assert filings[..n + 1][..n] == filings[..n];
      var row := rows[n];
      if |row| > 1 {
        var data := DeserializeRow(headings, row);
        var key := KeyOf(data);
        var accession := Get(data, "ref_accession");
        match RankOf(Get(data, "bold_taxon_rank")) {
          case Family => referenceFamily := referenceFamily[key := accession];
          case Order => referenceOrder := referenceOrder[key := accession];
          case Class => referenceClass := referenceClass[key := accession];
          case _ => referencePhylum := referencePhylum[key := accession];
        }
        var sequence := Get(data, "ref_sequence");
        referenceSeq := referenceSeq[AccessionKey(accession) := sequence];
        referenceLen := referenceLen[AccessionKey(accession) := SlotLength(sequence)];
      }
      n := n + 1;
    }
    assert filings[..|rows|] == filings;
    catalog := Catalog(referenceFamily, referenceOrder, referenceClass, referencePhylum,
                       referenceKingdom, referenceSeq, referenceLen);
  }

  /** The filing files under `key` in the table of `rank`. */
  predicate Hits(filing: Option<Filing>, rank: Rank, key: string) {
    filing.Some? && filing.value.rank == rank && filing.value.key == key
  }

  /** Row `row` is filed under `key` in the table of `rank`. */
  predicate Files(headings: seq<string>, row: seq<string>, rank: Rank, key: string) {
    Hits(RowFiling(headings, row), rank, key)
  }

  /** Filing changes only the table of the rank, at the key, and the sequence and length of the
      accession. */
  lemma FileEffect(catalog: Catalog, rank: Rank, key: string, accession: Slot, sequence: Slot)
    ensures var filed := File(catalog, rank, key, accession, sequence);
      && (forall r :: Table(filed, r) == if r == rank then Table(catalog, r)[key := accession] else Table(catalog, r))
      && filed.sequences == catalog.sequences[AccessionKey(accession) := sequence]
      && filed.lengths == catalog.lengths[AccessionKey(accession) := SlotLength(sequence)]
  {
  }

  /** No filing of rank Kingdom leaves the kingdom table empty. */
  lemma {:induction false} FileAllKingdom(filings: seq<Option<Filing>>)
    requires forall k :: 0 <= k < |filings| && filings[k].Some? ==> filings[k].value.rank != Kingdom
    ensures FileAll(filings).kingdomRefs == map[]
  {
    if filings != [] {
      var last := |filings| - 1;
      FileAllKingdom(filings[..last]);
      if filings[last].Some? {
        var f := filings[last].value;
        FileEffect(FileAll(filings[..last]), f.rank, f.key, f.accession, f.sequence);
        assert Table(FileAll(filings), Kingdom) == Table(FileAll(filings[..last]), Kingdom);
      }
    }
  }

  /** The length table holds, for every accession, the length of its sequence. */
  lemma {:induction false} FileAllLengths(filings: seq<Option<Filing>>)
    ensures var c := FileAll(filings);
      c.sequences.Keys == c.lengths.Keys &&
      forall acc :: acc in c.sequences ==> c.lengths[acc] == SlotLength(c.sequences[acc])
  {
    if filings != [] {
      var last := |filings| - 1;
      FileAllLengths(filings[..last]);
      if filings[last].Some? {
        var f := filings[last].value;
        FileEffect(FileAll(filings[..last]), f.rank, f.key, f.accession, f.sequence);
      }
    }
  }

  /** Every accession the table of `rank` holds has a recorded sequence. */
  predicate RefsHaveSequences(c: Catalog, rank: Rank) {
    forall key :: key in Table(c, rank) && Table(c, rank)[key].Some? ==> Table(c, rank)[key].value in c.sequences
  }

  lemma {:induction false} FileAllRefsHaveSequences(filings: seq<Option<Filing>>, rank: Rank)
    ensures RefsHaveSequences(FileAll(filings), rank)
  {
    if filings != [] {
      var last := |filings| - 1;
      FileAllRefsHaveSequences(filings[..last], rank);
      if filings[last].Some? {
        var f := filings[last].value;
        var previous := FileAll(filings[..last]);
        var c := FileAll(filings);
        FileEffect(previous, f.rank, f.key, f.accession, f.sequence);
        forall key | key in Table(c, rank) && Table(c, rank)[key].Some?
          ensures Table(c, rank)[key].value in c.sequences
        {
          if rank == f.rank && key == f.key {
            assert Table(c, rank)[key] == f.accession;
          } else {
            assert key in Table(previous, rank);
            assert Table(c, rank)[key] == Table(previous, rank)[key];
            assert Table(previous, rank)[key].value in previous.sequences;
          }
        }
      }
    }
  }

  /** A key is in a rank table exactly when some filing hit it. */
  lemma {:induction false} FileAllDomain(filings: seq<Option<Filing>>, rank: Rank, key: string)
    ensures key in Table(FileAll(filings), rank) <==> exists k :: 0 <= k < |filings| && Hits(filings[k], rank, key)
  {
    if filings != [] {
      var last := |filings| - 1;
      var prefix := filings[..last];
      FileAllDomain(prefix, rank, key);
      if filings[last].Some? {
        var f := filings[last].value;
        FileEffect(FileAll(prefix), f.rank, f.key, f.accession, f.sequence);
      }
      if key in Table(FileAll(prefix), rank) {
        var k :| 0 <= k < |prefix| && Hits(prefix[k], rank, key);
        assert filings[k] == prefix[k];
      }
      if k :| 0 <= k < |filings| && Hits(filings[k], rank, key) {
        if k < last {
          assert filings[k] == prefix[k];
        }
      }
    }
  }

  /** The key holds the accession of the last filing that hit it. */
  lemma {:induction false} FileAllLastWins(filings: seq<Option<Filing>>, rank: Rank, key: string, k: int)
    requires 0 <= k < |filings| && Hits(filings[k], rank, key)
    requires forall k' :: k < k' < |filings| ==> !Hits(filings[k'], rank, key)
    ensures key in Table(FileAll(filings), rank)
    ensures Table(FileAll(filings), rank)[key] == filings[k].value.accession
  {
    var last := |filings| - 1;
    var prefix := filings[..last];
    if filings[last].Some? {
      var f := filings[last].value;
      FileEffect(FileAll(prefix), f.rank, f.key, f.accession, f.sequence);
    }
    if k < last {
      forall k' | k < k' < |prefix| ensures !Hits(prefix[k'], rank, key) {
        assert prefix[k'] == filings[k'];
      }
      assert prefix[k] == filings[k];
      FileAllLastWins(prefix, rank, key, k);
    }
  }

  /** The kingdom table is never written. */
  lemma LoadLeavesKingdomEmpty(headings: seq<string>, rows: seq<seq<string>>)
    ensures LoadRows(headings, rows).kingdomRefs == map[]
  {
    FileAllKingdom(Filings(headings, rows));
  }

  /** reference_len holds, for every accession, the length of its reference_seq entry. */
  lemma LoadLengths(headings: seq<string>, rows: seq<seq<string>>)
    ensures var c := LoadRows(headings, rows);
      c.sequences.Keys == c.lengths.Keys &&
      forall acc :: acc in c.sequences ==> c.lengths[acc] == SlotLength(c.sequences[acc])
  {
    FileAllLengths(Filings(headings, rows));
  }

  /** Every accession a rank table holds has a recorded sequence. */
  lemma LoadRefsHaveSequences(headings: seq<string>, rows: seq<seq<string>>, rank: Rank)
    ensures RefsHaveSequences(LoadRows(headings, rows), rank)
  {
    FileAllRefsHaveSequences(Filings(headings, rows), rank);
  }

  /** A key is in a rank table exactly when some row was filed under it. */
  lemma LoadTableDomain(headings: seq<string>, rows: seq<seq<string>>, rank: Rank, key: string)
    ensures key in Table(LoadRows(headings, rows), rank) <==> exists k :: 0 <= k < |rows| && Files(headings, rows[k], rank, key)
  {
    var filings := Filings(headings, rows);
    FileAllDomain(filings, rank, key);
    if k :| 0 <= k < |filings| && Hits(filings[k], rank, key) {
      assert Files(headings, rows[k], rank, key);
    }
    if k :| 0 <= k < |rows| && Files(headings, rows[k], rank, key) {
      assert Hits(filings[k], rank, key);
    }
  }

  /** The key holds the accession of the last row filed under it: a later row with the same
      rank and key overwrites an earlier one. */
  lemma LoadLastRowWins(headings: seq<string>, rows: seq<seq<string>>, rank: Rank, key: string, k: int)
    requires 0 <= k < |rows| && Files(headings, rows[k], rank, key)
    requires forall k' :: k < k' < |rows| ==> !Files(headings, rows[k'], rank, key)
    ensures key in Table(LoadRows(headings, rows), rank)
    ensures Table(LoadRows(headings, rows), rank)[key] == Get(RowFields(headings, rows[k]), "ref_accession")
  {
    var filings := Filings(headings, rows);
    forall k' | k < k' < |filings| ensures !Hits(filings[k'], rank, key) {
      assert !Files(headings, rows[k'], rank, key);
    }
    FileAllLastWins(filings, rank, key, k);
  }
}
