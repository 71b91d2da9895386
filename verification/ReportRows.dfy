/** Rewriting the Koddi ids in the rows of a report, in place, with batched lookups. */
module ReportRows {
  import opened Options
  import opened JsonIds

  // A JSON cell; a List cannot be a dictionary key.
  datatype Cell = Null | Ref(id: Id) | List(numbers: seq<int>)

  type Cells = map<string, Cell>

  const AD_GROUP_ID := "ad_group_id"
  const ADVERTISER_ID := "advertiser_id"
  const CAMPAIGN_ID := "campaign_id"
  const ENTITY_ID := "entity_id"
  const PURCHASED_ENTITY_ID := "purchased_entity_id"
  const ADVERTISER_IDS := "advertiser_ids"
  const UPC_COLUMNS: set<string> := {ENTITY_ID, PURCHASED_ENTITY_ID}
  const ID_COLUMNS: set<string> := {AD_GROUP_ID, ADVERTISER_ID, CAMPAIGN_ID, ENTITY_ID, PURCHASED_ENTITY_ID}

  class Row {
    var cells: Cells

    constructor (cells: Cells)
      ensures this.cells == cells
    {
      this.cells := cells;
    }

    method TranslateId(key: string, lookup: map<Id, int>)
      modifies this
      ensures cells == Translate(old(cells), key, lookup)
    {
      if key in cells {
        cells := cells[key := Lookup(cells[key], lookup)];
      }
    }

    // Each id column ends as its own table's answer for what it held at first, every other column as it was.
    method TranslateItemIds(ids: External)
      modifies this
      ensures cells.Keys == old(cells).Keys
      ensures forall column :: column in cells ==>
                cells[column] == if column in ID_COLUMNS then Lookup(old(cells)[column], ids.For(column)) else old(cells)[column]
      ensures cells == TranslateAll(old(cells), ids)
    {
      TranslatedCells(cells, ids);
      ApplyTranslations(ids);
    }

    method ApplyTranslations(ids: External)
      modifies this
      ensures cells == TranslateAll(old(cells), ids)
    {
      TranslateId(AD_GROUP_ID, ids.adGroup);
      TranslateId(ADVERTISER_ID, ids.advertiser);
      TranslateId(CAMPAIGN_ID, ids.campaign);
      TranslateId(ENTITY_ID, ids.upc);
      TranslateId(PURCHASED_ENTITY_ID, ids.upc);
    }

    // Fails when the advertiser is not among the brands: there is no list to go through.
    method AddAdvertiserIds(advertiser: Cell, brands: map<Id, seq<Group>>) returns (ok: bool)
      modifies this
      ensures ok <==> (ADVERTISER_ID in old(cells) && advertiser.Ref? ==> advertiser.id in brands)
      ensures cells == if ok && ADVERTISER_ID in old(cells) && advertiser.Ref?
                       then old(cells)[ADVERTISER_IDS := List(ShortIds(brands[advertiser.id]))]
                       else old(cells)
    {
      if ADVERTISER_ID in cells && advertiser.Ref? {
        if advertiser.id !in brands {
          return false;
        }
        var groups := brands[advertiser.id];
        var shorts := [];
        for i := 0 to |groups|
          invariant shorts == ShortIds(groups[..i])
        {
          assert groups[..i + 1][..i] == groups[..i];
          if HasShortId(groups[i].shortId) {
            shorts := shorts + [groups[i].shortId.value];
          }
        }
        assert groups[..|groups|] == groups;
        cells := cells[ADVERTISER_IDS := List(shorts)];
      }
      ok := true;
    }
  }

  datatype Group = Group(koddiId: Id, longId: string, shortId: Option<int>)

  predicate HasShortId(shortId: Option<int>) {
    shortId.Some? && shortId.value != 0
  }

  function ShortIds(groups: seq<Group>): seq<int> {
    if groups == [] then []
    else
      var last := groups[|groups| - 1].shortId;
      ShortIds(groups[..|groups| - 1]) + if HasShortId(last) then [last.value] else []
  }

  datatype External = External(adGroup: map<Id, int>, advertiser: map<Id, int>, campaign: map<Id, int>, upc: map<Id, int>) {
    function For(column: string): map<Id, int>
      requires column in ID_COLUMNS
    {
      if column == AD_GROUP_ID then adGroup
      else if column == ADVERTISER_ID then advertiser
      else if column == CAMPAIGN_ID then campaign
      else upc
    }
  }

  function Lookup(cell: Cell, lookup: map<Id, int>): Cell {
    if cell.Ref? && cell.id in lookup then Ref(Number(lookup[cell.id])) else Null
  }

  function Translate(cells: Cells, key: string, lookup: map<Id, int>): Cells {
    if key in cells then cells[key := Lookup(cells[key], lookup)] else cells
  }

  function TranslateAll(cells: Cells, ids: External): Cells {
    var a := Translate(cells, AD_GROUP_ID, ids.adGroup);
    var b := Translate(a, ADVERTISER_ID, ids.advertiser);
    var c := Translate(b, CAMPAIGN_ID, ids.campaign);
    var d := Translate(c, ENTITY_ID, ids.upc);
    Translate(d, PURCHASED_ENTITY_ID, ids.upc)
  }

  // ---- Collecting ----

  // Adds the id the cell holds to the set; fails when the cell cannot be a member of a set.
  function UpdateId(key: string, item: Cells, ids: set<Id>): (r: Option<set<Id>>)
    ensures r.Some? <==> (key in item ==> !item[key].List?)
    ensures r.Some? ==> r.value == ids + RowIds(item, {key})
  {
    assert RowIds(item, {key}) == if key in item && item[key].Ref? then {item[key].id} else {};
    if key in item && !item[key].Null? then
      if item[key].List? then None else Some(ids + {item[key].id})
    else Some(ids)
  }

  class UniqueReportIds {
    var adGroups: set<Id>
    var advertisers: set<Id>
    var campaigns: set<Id>
    var upcs: set<Id>

    constructor ()
      ensures Value() == UniqueIds({}, {}, {}, {})
    {
      adGroups, advertisers, campaigns, upcs := {}, {}, {}, {};
    }

    function Value(): UniqueIds
      reads this
    {
      UniqueIds(adGroups, advertisers, campaigns, upcs)
    }

    method Update(item: Cells) returns (ok: bool)
      modifies this
      ensures ok <==> Hashable(item)
      ensures ok ==> Value() == old(Value()).With(item)
    {
      assert RowIds(item, UPC_COLUMNS) == RowIds(item, {ENTITY_ID}) + RowIds(item, {PURCHASED_ENTITY_ID});
      var a := UpdateId(AD_GROUP_ID, item, adGroups);
      var b := UpdateId(ADVERTISER_ID, item, advertisers);
      var c := UpdateId(CAMPAIGN_ID, item, campaigns);
      var d := UpdateId(ENTITY_ID, item, upcs);
      var e := UpdateId(PURCHASED_ENTITY_ID, item, if d.Some? then d.value else {});
      ok := a.Some? && b.Some? && c.Some? && d.Some? && e.Some?;
      if ok {
        adGroups, advertisers, campaigns, upcs := a.value, b.value, c.value, e.value;
      }
    }
  }

  function RowIds(cells: Cells, columns: set<string>): set<Id> {
    set c | c in columns && c in cells && cells[c].Ref? :: cells[c].id
  }

  // The naive definition: the ids that some row has in one of the columns.
  function Ids(table: seq<Cells>, columns: set<string>): set<Id> {
    set i, c | 0 <= i < |table| && c in columns && c in table[i] && table[i][c].Ref? :: table[i][c].id
  }

  lemma IdsStep(table: seq<Cells>, i: nat, columns: set<string>)
    requires i < |table|
    ensures Ids(table[..i + 1], columns) == Ids(table[..i], columns) + RowIds(table[i], columns)
  {
    var more, some := table[..i + 1], table[..i];
    forall id | id in Ids(some, columns) + RowIds(table[i], columns) ensures id in Ids(more, columns) {
      if id in RowIds(table[i], columns) {
        var c :| c in columns && c in table[i] && table[i][c].Ref? && table[i][c].id == id;
        assert more[i][c].id == id;
      } else {
        var j, c :| 0 <= j < |some| && c in columns && c in some[j] && some[j][c].Ref? && some[j][c].id == id;
        assert more[j][c].id == id;
      }
    }
    forall id | id in Ids(more, columns) ensures id in Ids(some, columns) + RowIds(table[i], columns) {
      var j, c :| 0 <= j < |more| && c in columns && c in more[j] && more[j][c].Ref? && more[j][c].id == id;
      if j < i {
        assert some[j][c].id == id;
      }
    }
  }

  predicate Hashable(cells: Cells) {
    forall c :: c in ID_COLUMNS && c in cells ==> !cells[c].List?
  }

  function Table(rows: seq<Row>): (t: seq<Cells>)
    reads rows
    ensures |t| == |rows| && forall i :: 0 <= i < |rows| ==> t[i] == rows[i].cells
  {
    seq(|rows|, i requires 0 <= i < |rows| reads rows => rows[i].cells)
  }

  datatype UniqueIds = UniqueIds(adGroups: set<Id>, advertisers: set<Id>, campaigns: set<Id>, upcs: set<Id>) {
    function For(column: string): set<Id>
      requires column in ID_COLUMNS
    {
      if column == AD_GROUP_ID then adGroups
      else if column == ADVERTISER_ID then advertisers
      else if column == CAMPAIGN_ID then campaigns
      else upcs
    }

    function With(item: Cells): UniqueIds {
      UniqueIds(adGroups + RowIds(item, {AD_GROUP_ID}), advertisers + RowIds(item, {ADVERTISER_ID}),
                campaigns + RowIds(item, {CAMPAIGN_ID}), upcs + RowIds(item, UPC_COLUMNS))
    }
  }

  function UniqueIdsOf(table: seq<Cells>): UniqueIds {
    UniqueIds(Ids(table, {AD_GROUP_ID}), Ids(table, {ADVERTISER_ID}), Ids(table, {CAMPAIGN_ID}), Ids(table, UPC_COLUMNS))
  }

  datatype Fault = Unhashable | UnknownAdvertiser

  method GetResponseIds(rows: seq<Row>) returns (r: Result<UniqueIds, Fault>)
    ensures r.Ok? <==> forall i :: 0 <= i < |rows| ==> Hashable(rows[i].cells)
    ensures r.Ok? ==> r.value == UniqueIdsOf(Table(rows))
    ensures r.Err? ==> r.error == Unhashable
  {
    var ids := new UniqueReportIds();
    ghost var table := Table(rows);
    for i := 0 to |rows|
      invariant fresh(ids)
      invariant AllHashable(table, i)
      invariant Collects(ids.Value(), table, i)
    {
      CollectStep(ids.Value(), table, i);
      var ok := ids.Update(rows[i].cells);
      if !ok {
        return Err(Unhashable);
      }
    }
    assert table[..|table|] == table;
    return Ok(ids.Value());
  }

  ghost predicate AllHashable(table: seq<Cells>, n: nat)
    requires n <= |table|
  {
    forall i :: 0 <= i < n ==> Hashable(table[i])
  }

  ghost predicate Collects(ids: UniqueIds, table: seq<Cells>, n: nat)
    requires n <= |table|
  {
    ids == UniqueIdsOf(table[..n])
  }

  lemma CollectStep(ids: UniqueIds, table: seq<Cells>, n: nat)
    requires n < |table| && Collects(ids, table, n)
    ensures Collects(ids.With(table[n]), table, n + 1)
  {
    UniqueIdsStep(table, n);
  }

  lemma UniqueIdsStep(table: seq<Cells>, i: nat)
    requires i < |table|
    ensures UniqueIdsOf(table[..i + 1]) == UniqueIdsOf(table[..i]).With(table[i])
  {
    IdsStep(table, i, {AD_GROUP_ID});
    IdsStep(table, i, {ADVERTISER_ID});
    IdsStep(table, i, {CAMPAIGN_ID});
    IdsStep(table, i, UPC_COLUMNS);
  }

  // ---- Translations and warnings ----

  // What the other translations answer for a set of ids.
  datatype Translations = Translations(adGroup: set<Id> -> map<Id, int>, campaign: set<Id> -> map<Id, int>, upc: set<Id> -> map<Id, int>)

  function AdvertiserTranslation(advertisers: set<Id>, brands: map<Id, seq<Group>>): map<Id, int> {
    map id | id in advertisers && id in brands && brands[id] != [] && HasShortId(brands[id][0].shortId) :: brands[id][0].shortId.value
  }

  function ExternalOf(ids: UniqueIds, translations: Translations, brands: map<Id, seq<Group>>): External {
    External(translations.adGroup(ids.adGroups), AdvertiserTranslation(ids.advertisers, brands),
             translations.campaign(ids.campaigns), translations.upc(ids.upcs))
  }

  datatype Warning = Warning(dimension: string, missing: set<Id>)

  function LookupWarning(dimension: string, keys: set<Id>, lookup: map<Id, int>): seq<Warning> {
    var missing := set k | k in keys && k !in lookup;
    if missing == {} then [] else [Warning(dimension, missing)]
  }

  function MissingLookupWarnings(ids: UniqueIds, ext: External): seq<Warning> {
    LookupWarning(ADVERTISER_ID, ids.advertisers, ext.advertiser)
    + LookupWarning(AD_GROUP_ID, ids.adGroups, ext.adGroup)
    + LookupWarning(CAMPAIGN_ID, ids.campaigns, ext.campaign)
    + LookupWarning(ENTITY_ID, ids.upcs, ext.upc)
  }

  // Both entity columns share a warning.
  function DimensionOf(column: string): string {
    if column == PURCHASED_ENTITY_ID then ENTITY_ID else column
  }

  predicate Warned(warnings: seq<Warning>, column: string, id: Id) {
    exists i :: 0 <= i < |warnings| && warnings[i].dimension == DimensionOf(column) && id in warnings[i].missing
  }

  // A warning names an id exactly when some row has it in a column of the dimension and no external id was found.
  lemma WarnedIffMissing(ids: UniqueIds, ext: External, column: string, id: Id)
    requires column in ID_COLUMNS
    ensures Warned(MissingLookupWarnings(ids, ext), column, id) <==> id in ids.For(column) && id !in ext.For(column)
  {
    var warnings := MissingLookupWarnings(ids, ext);
    var parts := [LookupWarning(ADVERTISER_ID, ids.advertisers, ext.advertiser), LookupWarning(AD_GROUP_ID, ids.adGroups, ext.adGroup),
                  LookupWarning(CAMPAIGN_ID, ids.campaigns, ext.campaign), LookupWarning(ENTITY_ID, ids.upcs, ext.upc)];
    assert warnings == parts[0] + parts[1] + parts[2] + parts[3];
    WarnedInConcat(parts[0] + parts[1] + parts[2], parts[3], column, id);
    WarnedInConcat(parts[0] + parts[1], parts[2], column, id);
    WarnedInConcat(parts[0], parts[1], column, id);
    WarnedByOne(ADVERTISER_ID, ids.advertisers, ext.advertiser, column, id);
    WarnedByOne(AD_GROUP_ID, ids.adGroups, ext.adGroup, column, id);
    WarnedByOne(CAMPAIGN_ID, ids.campaigns, ext.campaign, column, id);
    WarnedByOne(ENTITY_ID, ids.upcs, ext.upc, column, id);
    ColumnsDiffer();
  }

  lemma ColumnsDiffer()
    ensures AD_GROUP_ID != ADVERTISER_ID && AD_GROUP_ID != CAMPAIGN_ID && AD_GROUP_ID != ENTITY_ID && AD_GROUP_ID != PURCHASED_ENTITY_ID
    ensures ADVERTISER_ID != CAMPAIGN_ID && ADVERTISER_ID != ENTITY_ID && ADVERTISER_ID != PURCHASED_ENTITY_ID
    ensures CAMPAIGN_ID != ENTITY_ID && CAMPAIGN_ID != PURCHASED_ENTITY_ID && ENTITY_ID != PURCHASED_ENTITY_ID
    ensures ADVERTISER_IDS !in ID_COLUMNS
  {
    assert AD_GROUP_ID[1] != ADVERTISER_ID[1] || |AD_GROUP_ID| != |ADVERTISER_ID|;
    assert |AD_GROUP_ID| == 11 && |ADVERTISER_ID| == 13 && |CAMPAIGN_ID| == 11 && |ENTITY_ID| == 9 && |PURCHASED_ENTITY_ID| == 19;
    assert |ADVERTISER_IDS| == 14;
    assert AD_GROUP_ID[0] != CAMPAIGN_ID[0];
  }

  lemma WarnedInConcat(a: seq<Warning>, b: seq<Warning>, column: string, id: Id)
    ensures Warned(a + b, column, id) <==> Warned(a, column, id) || Warned(b, column, id)
  {
    if Warned(a, column, id) {
      var i :| 0 <= i < |a| && a[i].dimension == DimensionOf(column) && id in a[i].missing;
      assert (a + b)[i] == a[i];
    }
    if Warned(b, column, id) {
      var i :| 0 <= i < |b| && b[i].dimension == DimensionOf(column) && id in b[i].missing;
      assert (a + b)[|a| + i] == b[i];
    }
  }

  lemma WarnedByOne(dimension: string, keys: set<Id>, lookup: map<Id, int>, column: string, id: Id)
    ensures Warned(LookupWarning(dimension, keys, lookup), column, id)
            <==> dimension == DimensionOf(column) && id in keys && id !in lookup
  {
    var missing := set k | k in keys && k !in lookup;
    var warnings := LookupWarning(dimension, keys, lookup);
    assert id in keys && id !in lookup <==> id in missing;
    if missing != {} {
      assert warnings == [Warning(dimension, missing)] && warnings[0].missing == missing;
    }
  }

  // ---- One row, cell by cell ----

  function HasAdvertiser(cells: Cells): bool {
    ADVERTISER_ID in cells && cells[ADVERTISER_ID].Ref?
  }

  function Rewritten(cells: Cells, ids: External, brands: map<Id, seq<Group>>): Cells
    requires HasAdvertiser(cells) ==> cells[ADVERTISER_ID].id in brands
  {
    if HasAdvertiser(cells)
    then TranslateAll(cells, ids)[ADVERTISER_IDS := List(ShortIds(brands[cells[ADVERTISER_ID].id]))]
    else TranslateAll(cells, ids)
  }

  // Each id column is looked up by its own table, once; nothing else but the advertiser list changes.
  lemma RewrittenCellByCell(cells: Cells, ids: External, brands: map<Id, seq<Group>>, column: string)
    requires HasAdvertiser(cells) ==> cells[ADVERTISER_ID].id in brands
    ensures var r := Rewritten(cells, ids, brands);
            && (column in r <==> column in cells || (column == ADVERTISER_IDS && HasAdvertiser(cells)))
            && (column in ID_COLUMNS && column in cells ==> r[column] == Lookup(cells[column], ids.For(column)))
            && (column == ADVERTISER_IDS && HasAdvertiser(cells) ==> r[column] == List(ShortIds(brands[cells[ADVERTISER_ID].id])))
            && (column in cells && column !in ID_COLUMNS && !(column == ADVERTISER_IDS && HasAdvertiser(cells)) ==> r[column] == cells[column])
  {
    ColumnsDiffer();
    TranslatedCell(cells, ids, column);
  }

  lemma TranslatedCell(cells: Cells, ids: External, column: string)
    ensures var r := TranslateAll(cells, ids);
            && r.Keys == cells.Keys
            && (column in cells ==> r[column] == if column in ID_COLUMNS then Lookup(cells[column], ids.For(column)) else cells[column])
  {
    ColumnsDiffer();
    var a := Translate(cells, AD_GROUP_ID, ids.adGroup);
    var b := Translate(a, ADVERTISER_ID, ids.advertiser);
    var c := Translate(b, CAMPAIGN_ID, ids.campaign);
    var d := Translate(c, ENTITY_ID, ids.upc);
    TranslatedOnce(cells, AD_GROUP_ID, ids.adGroup, column);
    TranslatedOnce(a, ADVERTISER_ID, ids.advertiser, column);
    TranslatedOnce(b, CAMPAIGN_ID, ids.campaign, column);
    TranslatedOnce(c, ENTITY_ID, ids.upc, column);
    TranslatedOnce(d, PURCHASED_ENTITY_ID, ids.upc, column);
  }

  lemma TranslatedCells(cells: Cells, ids: External)
    ensures TranslateAll(cells, ids).Keys == cells.Keys
    ensures forall column :: column in cells ==>
              TranslateAll(cells, ids)[column] == if column in ID_COLUMNS then Lookup(cells[column], ids.For(column)) else cells[column]
  {
    forall column ensures TranslateAll(cells, ids).Keys == cells.Keys
        && (column in cells ==> TranslateAll(cells, ids)[column] == if column in ID_COLUMNS then Lookup(cells[column], ids.For(column)) else cells[column])
    {
      TranslatedCell(cells, ids, column);
    }
  }

  lemma TranslatedOnce(cells: Cells, key: string, lookup: map<Id, int>, column: string)
    ensures Translate(cells, key, lookup).Keys == cells.Keys
    ensures column in cells ==> Translate(cells, key, lookup)[column] == if column == key then Lookup(cells[column], lookup) else cells[column]
  {
  }

  // ---- The whole report ----

  // Column of row i reads before and after, given the warnings.
  predicate Explained(before: Cells, after: Cells, warnings: seq<Warning>, ids: External, column: string)
    requires column in ID_COLUMNS
  {
    && (column in after <==> column in before)
    && (column in before ==>
          && (before[column].Ref? ==> (after[column].Null? <==> Warned(warnings, column, before[column].id)))
          && (before[column].Ref? && before[column].id in ids.For(column) ==> after[column] == Ref(Number(ids.For(column)[before[column].id])))
          && (!before[column].Ref? ==> after[column].Null?))
  }

  // ---- The whole report, column by column ----

  // A column ends as the answer for the id it held, and as null without one.
  ghost predicate EndsAs(before: Cells, after: Cells, column: string, answers: map<Id, int>) {
    && (column in after <==> column in before)
    && (column in before ==>
          after[column] == match before[column]
                           case Ref(k) => (if k in answers then Ref(Number(answers[k])) else Null)
                           case _ => Null)
  }

  ghost predicate FirstHasShortId(groups: seq<Group>) {
    |groups| > 0 && groups[0].shortId.Some? && groups[0].shortId.value != 0
  }

  // An advertiser ends as the short id of its first group, and as null when that has none; all its short ids are listed beside it.
  ghost predicate AdvertiserEnds(before: Cells, after: Cells, brands: map<Id, seq<Group>>) {
    && ("advertiser_id" in after <==> "advertiser_id" in before)
    && ("advertiser_id" in before ==>
          match before["advertiser_id"]
          case Ref(k) =>
            && k in brands
            && after["advertiser_id"] == (if FirstHasShortId(brands[k]) then Ref(Number(brands[k][0].shortId.value)) else Null)
            && "advertiser_ids" in after && after["advertiser_ids"].List? && ListsShortIds(brands[k], after["advertiser_ids"].numbers)
          case _ => after["advertiser_id"] == Null)
  }

  // The groups at these places, in order, are the ones with a short id other than 0, and these are their short ids.
  ghost predicate PlacesOfShortIds(groups: seq<Group>, places: seq<nat>, shorts: seq<int>) {
    && |places| == |shorts|
    && (forall a, b :: 0 <= a < b < |places| ==> places[a] < places[b])
    && (forall a :: 0 <= a < |places| ==> places[a] < |groups| && shorts[a] != 0 && groups[places[a]].shortId == Some(shorts[a]))
    && (forall i: nat :: i < |groups| && groups[i].shortId.Some? && groups[i].shortId.value != 0 ==> i in places)
  }

  ghost predicate ListsShortIds(groups: seq<Group>, shorts: seq<int>) {
    exists places :: PlacesOfShortIds(groups, places, shorts)
  }

  // Every other column is as it was.
  ghost predicate OthersStay(before: Cells, after: Cells) {
    forall c :: c !in {"ad_group_id", "advertiser_id", "campaign_id", "entity_id", "purchased_entity_id"} ==>
      (c != "advertiser_ids" || ("advertiser_id" in before ==> !before["advertiser_id"].Ref?)) ==>
        (c in after <==> c in before) && (c in before ==> after[c] == before[c])
  }

  // A row of the report before and after: each translation is asked for the ids the whole report has in its columns.
  ghost predicate RowTranslated(report: seq<Cells>, before: Cells, after: Cells, translations: Translations, brands: map<Id, seq<Group>>) {
    var upcs := translations.upc(Ids(report, {"entity_id", "purchased_entity_id"}));
    && EndsAs(before, after, "ad_group_id", translations.adGroup(Ids(report, {"ad_group_id"})))
    && EndsAs(before, after, "campaign_id", translations.campaign(Ids(report, {"campaign_id"})))
    && EndsAs(before, after, "entity_id", upcs)
    && EndsAs(before, after, "purchased_entity_id", upcs)
    && AdvertiserEnds(before, after, brands)
    && OthersStay(before, after)
  }

  ghost predicate Names(warnings: seq<Warning>, dimension: string, id: Id) {
    exists i :: 0 <= i < |warnings| && warnings[i].dimension == dimension && id in warnings[i].missing
  }

  // The warnings of a dimension name the ids without an answer.
  ghost predicate WarnsOf(warnings: seq<Warning>, dimension: string, ids: set<Id>, answered: set<Id>) {
    forall id :: Names(warnings, dimension, id) <==> id in ids && id !in answered
  }

  ghost predicate WarningsTell(report: seq<Cells>, warnings: seq<Warning>, translations: Translations, brands: map<Id, seq<Group>>) {
    var adGroups, campaigns := Ids(report, {"ad_group_id"}), Ids(report, {"campaign_id"});
    var upcs, advertisers := Ids(report, {"entity_id", "purchased_entity_id"}), Ids(report, {"advertiser_id"});
    && WarnsOf(warnings, "ad_group_id", adGroups, translations.adGroup(adGroups).Keys)
    && WarnsOf(warnings, "campaign_id", campaigns, translations.campaign(campaigns).Keys)
    && WarnsOf(warnings, "entity_id", upcs, translations.upc(upcs).Keys)
    && WarnsOf(warnings, "advertiser_id", advertisers, set k | k in brands && FirstHasShortId(brands[k]))
  }

  // One warning for a dimension at most, and none without an id.
  ghost predicate WarnsOnce(warnings: seq<Warning>) {
    && (forall i, j :: 0 <= i < j < |warnings| ==> warnings[i].dimension != warnings[j].dimension)
    && (forall i :: 0 <= i < |warnings| ==> warnings[i].missing != {}
                                            && warnings[i].dimension in {"advertiser_id", "ad_group_id", "campaign_id", "entity_id"})
  }

  ghost predicate ReportTranslated(before: seq<Cells>, after: seq<Cells>, warnings: seq<Warning>,
                                   translations: Translations, brands: map<Id, seq<Group>>) {
    && |after| == |before|
    && (forall i :: 0 <= i < |before| ==> RowTranslated(before, before[i], after[i], translations, brands))
    && WarningsTell(before, warnings, translations, brands)
    && WarnsOnce(warnings)
  }

  lemma {:induction false} ShortIdsInOrder(groups: seq<Group>)
    ensures ListsShortIds(groups, ShortIds(groups))
  {
    var shorts := ShortIds(groups);
    if groups == [] {
      assert PlacesOfShortIds(groups, [], shorts);
    } else {
      var front, last := groups[..|groups| - 1], |groups| - 1;
      ShortIdsInOrder(front);
      var places :| PlacesOfShortIds(front, places, ShortIds(front));
      if HasShortId(groups[last].shortId) {
        PlaceTaken(groups, front, places, ShortIds(front));
      } else {
        PlacePassed(groups, front, places, ShortIds(front));
      }
    }
  }

  lemma PlaceTaken(groups: seq<Group>, front: seq<Group>, places: seq<nat>, shorts: seq<int>)
    requires |groups| > 0 && front == groups[..|groups| - 1] && PlacesOfShortIds(front, places, shorts)
    requires HasShortId(groups[|groups| - 1].shortId)
    ensures PlacesOfShortIds(groups, places + [|groups| - 1], shorts + [groups[|groups| - 1].shortId.value])
  {
    var all := places + [|groups| - 1];
    forall i: nat | i < |groups| && groups[i].shortId.Some? && groups[i].shortId.value != 0 ensures i in all {
      if i < |front| {
        assert front[i] == groups[i];
        assert i in places;
      } else {
        assert all[|places|] == i;
      }
    }
  }

  lemma PlacePassed(groups: seq<Group>, front: seq<Group>, places: seq<nat>, shorts: seq<int>)
    requires |groups| > 0 && front == groups[..|groups| - 1] && PlacesOfShortIds(front, places, shorts)
    requires !HasShortId(groups[|groups| - 1].shortId)
    ensures PlacesOfShortIds(groups, places, shorts + [])
  {
    assert shorts + [] == shorts;
    forall i: nat | i < |groups| && groups[i].shortId.Some? && groups[i].shortId.value != 0 ensures i in places {
      assert front[i] == groups[i];
    }
  }

  lemma RowIsTranslated(table: seq<Cells>, i: nat, translations: Translations, brands: map<Id, seq<Group>>)
    requires i < |table| && Served(table[i], brands)
    ensures RowTranslated(table, table[i], Rewritten(table[i], ExternalOf(UniqueIdsOf(table), translations, brands), brands), translations, brands)
  {
    var before, ext := table[i], ExternalOf(UniqueIdsOf(table), translations, brands);
    var after := Rewritten(before, ext, brands);
    ColumnsDiffer();
    forall column ensures column in ID_COLUMNS ==> EndsAs(before, after, column, ext.For(column)) {
      RewrittenCellByCell(before, ext, brands, column);
    }
    assert EndsAs(before, after, "ad_group_id", ext.For("ad_group_id"));
    assert EndsAs(before, after, "campaign_id", ext.For("campaign_id"));
    assert EndsAs(before, after, "entity_id", ext.For("entity_id"));
    assert EndsAs(before, after, "purchased_entity_id", ext.For("purchased_entity_id"));
    AdvertiserIsTranslated(table, i, ext, brands);
    OthersAreKept(before, ext, brands);
  }

  lemma OthersAreKept(before: Cells, ext: External, brands: map<Id, seq<Group>>)
    requires Served(before, brands)
    ensures OthersStay(before, Rewritten(before, ext, brands))
  {
    forall c | c !in ID_COLUMNS ensures var r := Rewritten(before, ext, brands);
        (c != "advertiser_ids" || !HasAdvertiser(before)) ==> (c in r <==> c in before) && (c in before ==> r[c] == before[c])
    {
      RewrittenCellByCell(before, ext, brands, c);
    }
  }

  lemma AdvertiserIsTranslated(table: seq<Cells>, i: nat, ext: External, brands: map<Id, seq<Group>>)
    requires i < |table| && Served(table[i], brands)
    requires ext.advertiser == AdvertiserTranslation(UniqueIdsOf(table).advertisers, brands)
    ensures AdvertiserEnds(table[i], Rewritten(table[i], ext, brands), brands)
  {
    ColumnsDiffer();
    RewrittenCellByCell(table[i], ext, brands, ADVERTISER_ID);
    RewrittenCellByCell(table[i], ext, brands, ADVERTISER_IDS);
    if HasAdvertiser(table[i]) {
      IdIsCollected(table, i, ADVERTISER_ID);
      ShortIdsInOrder(brands[table[i][ADVERTISER_ID].id]);
    }
  }

  lemma WarningsAreTold(table: seq<Cells>, translations: Translations, brands: map<Id, seq<Group>>)
    ensures var ids := UniqueIdsOf(table);
            WarningsTell(table, MissingLookupWarnings(ids, ExternalOf(ids, translations, brands)), translations, brands)
  {
    var ids := UniqueIdsOf(table);
    var ext := ExternalOf(ids, translations, brands);
    var warnings := MissingLookupWarnings(ids, ext);
    ColumnsDiffer();
    forall column, id | column in ID_COLUMNS
      ensures Names(warnings, DimensionOf(column), id) <==> id in ids.For(column) && id !in ext.For(column)
    {
      WarnedIffMissing(ids, ext, column, id);
    }
    assert DimensionOf(AD_GROUP_ID) == "ad_group_id" && DimensionOf(ADVERTISER_ID) == "advertiser_id";
    assert DimensionOf(CAMPAIGN_ID) == "campaign_id" && DimensionOf(ENTITY_ID) == "entity_id";
  }

  lemma WarnedOnce(ids: UniqueIds, ext: External)
    ensures WarnsOnce(MissingLookupWarnings(ids, ext))
  {
    ColumnsDiffer();
  }

  lemma TableIsTranslated(table: seq<Cells>, after: seq<Cells>, translations: Translations, brands: map<Id, seq<Group>>)
    requires |after| == |table|
    requires forall i :: 0 <= i < |table| ==>
               Served(table[i], brands) && after[i] == Rewritten(table[i], ExternalOf(UniqueIdsOf(table), translations, brands), brands)
    ensures ReportTranslated(table, after, MissingLookupWarnings(UniqueIdsOf(table), ExternalOf(UniqueIdsOf(table), translations, brands)),
                             translations, brands)
  {
    forall i | 0 <= i < |table| ensures RowTranslated(table, table[i], after[i], translations, brands) {
      RowIsTranslated(table, i, translations, brands);
    }
    WarningsAreTold(table, translations, brands);
    WarnedOnce(UniqueIdsOf(table), ExternalOf(UniqueIdsOf(table), translations, brands));
  }

  // The rows are parsed from JSON, so no row object occurs twice.
  method TranslateReport(rows: seq<Row>, translations: Translations, brands: map<Id, seq<Group>>)
    returns (r: Result<seq<Warning>, Fault>)
    requires forall i, j :: 0 <= i < j < |rows| ==> rows[i] != rows[j]
    modifies rows
    ensures r.Ok? <==> forall i :: 0 <= i < |rows| ==> old(Hashable(rows[i].cells)) && old(Served(rows[i].cells, brands))
    ensures r.Ok? ==>
              var ids := UniqueIdsOf(old(Table(rows)));
              var ext := ExternalOf(ids, translations, brands);
              && r.value == MissingLookupWarnings(ids, ext)
              && forall i :: 0 <= i < |rows| ==> old(Served(rows[i].cells, brands)) && rows[i].cells == Rewritten(old(rows[i].cells), ext, brands)
    ensures r.Ok? ==> ReportTranslated(old(Table(rows)), Table(rows), r.value, translations, brands)
    ensures r == Err(Unhashable) <==> exists i :: 0 <= i < |rows| && !old(Hashable(rows[i].cells))
    ensures r == Err(Unhashable) ==> Table(rows) == old(Table(rows))
  {
    ghost var table := Table(rows);
    var unique := GetResponseIds(rows);
    if unique.Err? {
      return Err(unique.error);
    }
    var ext := ExternalOf(unique.value, translations, brands);
    var warnings := MissingLookupWarnings(unique.value, ext);
    var ok := RewriteRows(rows, ext, brands);
    if ok {
      TableIsTranslated(table, Table(rows), translations, brands);
    }
    return if ok then Ok(warnings) else Err(UnknownAdvertiser);
  }

  // Fails at the first row whose advertiser is not among the brands.
  method RewriteRows(rows: seq<Row>, ext: External, brands: map<Id, seq<Group>>) returns (ok: bool)
    requires forall i, j :: 0 <= i < j < |rows| ==> rows[i] != rows[j]
    modifies rows
    ensures ok <==> forall i :: 0 <= i < |rows| ==> old(Served(rows[i].cells, brands))
    ensures ok ==> forall i :: 0 <= i < |rows| ==> old(Served(rows[i].cells, brands)) && rows[i].cells == Rewritten(old(rows[i].cells), ext, brands)
  {
    for i := 0 to |rows|
      invariant forall j :: 0 <= j < i ==> old(Served(rows[j].cells, brands)) && rows[j].cells == Rewritten(old(rows[j].cells), ext, brands)
      invariant forall j :: i <= j < |rows| ==> rows[j].cells == old(rows[j].cells)
    {
      ok := RewriteRow(rows[i], ext, brands);
      if !ok {
        return;
      }
    }
    ok := true;
  }

  method RewriteRow(item: Row, ext: External, brands: map<Id, seq<Group>>) returns (ok: bool)
    modifies item
    ensures ok <==> old(Served(item.cells, brands))
    ensures ok ==> item.cells == Rewritten(old(item.cells), ext, brands)
  {
    var advertiser := if ADVERTISER_ID in item.cells then item.cells[ADVERTISER_ID] else Null;
    item.TranslateItemIds(ext);
    TranslatedCell(old(item.cells), ext, ADVERTISER_ID);
    ok := item.AddAdvertiserIds(advertiser, brands);
  }

  // The advertiser the row names, if any, is among the brands.
  predicate Served(cells: Cells, brands: map<Id, seq<Group>>) {
    HasAdvertiser(cells) ==> cells[ADVERTISER_ID].id in brands
  }

  // An id that some row has is a unique id of its column.
  lemma IdIsCollected(table: seq<Cells>, i: nat, column: string)
    requires i < |table| && column in ID_COLUMNS && column in table[i] && table[i][column].Ref?
    ensures table[i][column].id in UniqueIdsOf(table).For(column)
  {
    ColumnsDiffer();
  }

  // In any report, every id column ends as the external id of its value or null, and an id turned null
  // exactly when the warnings of its dimension name it.
  lemma NullIffWarned(table: seq<Cells>, translations: Translations, brands: map<Id, seq<Group>>, i: nat, column: string)
    requires i < |table| && column in ID_COLUMNS && Served(table[i], brands)
    ensures var ids := UniqueIdsOf(table);
            var ext := ExternalOf(ids, translations, brands);
            Explained(table[i], Rewritten(table[i], ext, brands), MissingLookupWarnings(ids, ext), ext, column)
  {
    var ids := UniqueIdsOf(table);
    var ext := ExternalOf(ids, translations, brands);
    RewrittenCellByCell(table[i], ext, brands, column);
    ColumnsDiffer();
    if column in table[i] && table[i][column].Ref? {
      IdIsCollected(table, i, column);
      WarnedIffMissing(ids, ext, column, table[i][column].id);
    }
  }

  // A warning names only ids that some row has in a column of its dimension.
  lemma WarningsNameRealIds(table: seq<Cells>, ext: External, column: string, id: Id)
    requires column in ID_COLUMNS && Warned(MissingLookupWarnings(UniqueIdsOf(table), ext), column, id)
    ensures exists i, c :: 0 <= i < |table| && c in ID_COLUMNS && DimensionOf(c) == DimensionOf(column)
                           && c in table[i] && table[i][c] == Ref(id)
  {
    WarnedIffMissing(UniqueIdsOf(table), ext, column, id);
    ColumnsDiffer();
    var columns := if column in UPC_COLUMNS then UPC_COLUMNS else {column};
    assert id in Ids(table, columns);
    var i, c :| 0 <= i < |table| && c in columns && c in table[i] && table[i][c].Ref? && table[i][c].id == id;
    assert table[i][c] == Ref(id);
  }
}
