/** The choice of reference accession for a barcode record (step 2 of parse_cpp.php): the first
    taxon field the record sets, among family, order, class, phylum and kingdom, is looked up in
    the table of its rank; a miss, or a record with none of them, gives the default accession. */
module Selection {
  import opened Wrappers
  import opened Catalog

  /** Drosophila NC_046603, the default reference. */
  const DefaultAccession := "NC_046603"

  /** The record property naming the taxon of each rank. */
  function RankField(rank: Rank): string {
    match rank
    case Family => "family"
    case Order => "order"
    case Class => "class"
    case Phylum => "phylum"
    case Kingdom => "kingdom"
  }

  /** `isset($table[$key])`: the key is there and its accession is not null. */
  function Lookup(table: map<string, Slot>, key: string): (found: Option<string>)
    ensures found.Some? <==> key in table && table[key].Some?
    ensures found.Some? ==> table[key] == found
  {
    if key in table then table[key] else None
  }

  /** The if/elseif chain, one branch per rank in the order the source tests them. */
  function SelectReference(data: Record, catalog: Catalog): string {
    if "family" in data then
      Lookup(catalog.familyRefs, data["family"]).GetOr(DefaultAccession)
    else if "order" in data then
      Lookup(catalog.orderRefs, data["order"]).GetOr(DefaultAccession)
    else if "class" in data then
      Lookup(catalog.classRefs, data["class"]).GetOr(DefaultAccession)
    else if "phylum" in data then
      Lookup(catalog.phylumRefs, data["phylum"]).GetOr(DefaultAccession)
    else if "kingdom" in data then
      Lookup(catalog.kingdomRefs, data["kingdom"]).GetOr(DefaultAccession)
    else
      DefaultAccession
  }

  /** The ranks in the order the chain consults them. */
  const RankOrder := [Family, Order, Class, Phylum, Kingdom]

  /** The first rank of `ranks` whose field the record sets. */
  function FirstPresent(data: Record, ranks: seq<Rank>): (r: Option<Rank>)
    ensures r.Some? ==> r.value in ranks && RankField(r.value) in data
  {
    if ranks == [] then None
    else if RankField(ranks[0]) in data then Some(ranks[0])
    else FirstPresent(data, ranks[1..])
  }

  /** FirstPresent finds a rank exactly when one of them is set, and every rank before the one
      it finds is unset. */
  lemma {:induction false} FirstPresentSpec(data: Record, ranks: seq<Rank>)
    ensures FirstPresent(data, ranks).None? <==> forall k :: 0 <= k < |ranks| ==> RankField(ranks[k]) !in data
    ensures FirstPresent(data, ranks).Some? ==>
      exists k :: 0 <= k < |ranks| && ranks[k] == FirstPresent(data, ranks).value &&
        forall r :: r in ranks[..k] ==> RankField(r) !in data
  {
    if ranks != [] && RankField(ranks[0]) !in data {
      var rest := ranks[1..];
      FirstPresentSpec(data, rest);
      if FirstPresent(data, rest).Some? {
        var k :| 0 <= k < |rest| && rest[k] == FirstPresent(data, rest).value &&
          forall r :: r in rest[..k] ==> RankField(r) !in data;
        assert ranks[k + 1] == rest[k];
        assert ranks[..k + 1] == [ranks[0]] + rest[..k];
      } else {
        forall k | 0 <= k < |ranks| ensures RankField(ranks[k]) !in data {
          if k > 0 { assert ranks[k] == rest[k - 1]; }
        }
      }
    } else if ranks != [] {
      assert ranks[..0] == [];
    }
  }

  /** Only the first present taxon field is ever looked up: the chain returns its table's
      accession when it has one and the default otherwise, whatever the later fields hold. */
  lemma SelectFirstPresent(data: Record, catalog: Catalog)
    ensures SelectReference(data, catalog) ==
      match FirstPresent(data, RankOrder)
      case None => DefaultAccession
      case Some(rank) => Lookup(Table(catalog, rank), data[RankField(rank)]).GetOr(DefaultAccession)
  {
    var tail1 := [Order, Class, Phylum, Kingdom];
    var tail2 := [Class, Phylum, Kingdom];
    var tail3 := [Phylum, Kingdom];
    var tail4 := [Kingdom];
    assert RankOrder[1..] == tail1 && tail1[1..] == tail2 && tail2[1..] == tail3;
    assert tail3[1..] == tail4 && tail4[1..] == [];
    if "family" in data {
      assert FirstPresent(data, RankOrder) == Some(Family);
    } else if "order" in data {
      assert FirstPresent(data, RankOrder) == Some(Order);
    } else if "class" in data {
      assert FirstPresent(data, tail1) == Some(Class);
    } else if "phylum" in data {
      assert FirstPresent(data, tail2) == Some(Phylum);
    } else if "kingdom" in data {
      assert FirstPresent(data, tail3) == FirstPresent(data, tail4) == Some(Kingdom);
      assert FirstPresent(data, RankOrder) == FirstPresent(data, tail2);
    } else {
      assert FirstPresent(data, tail3) == FirstPresent(data, tail4) == None;
      assert FirstPresent(data, RankOrder) == FirstPresent(data, tail2);
    }
  }

  /** With family set but not matched, the default is chosen even when the order table would
      match. */
  lemma SelectShortCircuit(data: Record, catalog: Catalog)
    requires "family" in data && Lookup(catalog.familyRefs, data["family"]).None?
    ensures SelectReference(data, catalog) == DefaultAccession
  {
  }

  /** A record with no taxon field gets the default. */
  lemma SelectNoTaxon(data: Record, catalog: Catalog)
    requires forall rank :: RankField(rank) !in data
    ensures SelectReference(data, catalog) == DefaultAccession
  {
    assert RankField(Family) !in data && RankField(Order) !in data && RankField(Class) !in data;
    assert RankField(Phylum) !in data && RankField(Kingdom) !in data;
  }

  /** The chosen accession is the default or one the catalog holds for some taxon. */
  lemma SelectResult(data: Record, catalog: Catalog)
    ensures var acc := SelectReference(data, catalog);
      acc == DefaultAccession ||
      exists rank, key :: key in Table(catalog, rank) && Table(catalog, rank)[key] == Some(acc)
  {
    SelectFirstPresent(data, catalog);
    var acc := SelectReference(data, catalog);
    if acc != DefaultAccession {
      var rank := FirstPresent(data, RankOrder).value;
      var key := data[RankField(rank)];
      assert key in Table(catalog, rank) && Table(catalog, rank)[key] == Some(acc);
    }
  }

  /** Against a loaded catalog, a record whose first taxon field is kingdom always gets the
      default, because the load never writes the kingdom table. */
  lemma SelectKingdomIsDefault(data: Record, headings: seq<string>, rows: seq<seq<string>>)
    requires FirstPresent(data, RankOrder) == Some(Kingdom)
    ensures SelectReference(data, LoadRows(headings, rows)) == DefaultAccession
  {
    SelectFirstPresent(data, LoadRows(headings, rows));
    LoadLeavesKingdomEmpty(headings, rows);
  }
}
