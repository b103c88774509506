/**
 * The invalid-id check: every category a rule references must exist in the
 * index of the taxonomy version on that side of the mapping
 * (`validate_mapping_category_ids` and the "category IDs in mappings are
 * valid" test).
 */
module InvalidIds {
  import opened Wrappers
  import opened Taxonomy
  import opened Mappings
  import opened Reports

  /** One report entry: the distinct invalid ids found on one side of one mapping. */
  datatype InvalidEntry = InvalidEntry(taxonomyVersion: string, direction: Direction, categoryIds: set<string>)

  /** The distinct ids referenced on side `d` of `rules` that the index lacks. */
  function InvalidIdsOf(rules: seq<Rule>, d: Direction, index: set<string>): (r: set<string>)
    ensures forall id :: id in r <==> id !in index && References(rules, d, id)
    decreases |rules|
  {
    if |rules| == 0 then {}
    else
      var here := set id | id in RefIds(Side(rules[0], d)) && id !in index;
      var rest := InvalidIdsOf(rules[1..], d, index);
      assert forall id :: References(rules, d, id) <==>
        id in RefIds(Side(rules[0], d)) || References(rules[1..], d, id) by {
        forall id
          ensures References(rules, d, id) ==> id in RefIds(Side(rules[0], d)) || References(rules[1..], d, id)
        {
          if References(rules, d, id) {
            var i :| 0 <= i < |rules| && id in RefIds(Side(rules[i], d));
            if i > 0 {
              assert rules[1..][i - 1] == rules[i];
            }
          }
        }
        forall id
          ensures References(rules[1..], d, id) ==> References(rules, d, id)
        {
          if References(rules[1..], d, id) {
            var i :| 0 <= i < |rules[1..]| && id in RefIds(Side(rules[1..][i], d));
            assert rules[i + 1] == rules[1..][i];
          }
        }
      }
      here + rest
  }

  /** Side `d` of mapping `m` references only ids its index knows, or has no index at all. */
  ghost predicate IdsValid(m: Mapping, d: Direction, data: TaxonomyData) {
    match CategoryIdsFromTaxonomy(TaxonomyOf(m, d), data)
    case None => true
    case Some(index) => InvalidIdsOf(m.rules, d, index) == {}
  }

  /** A side is valid exactly when it has no index or every id it references is indexed. */
  lemma IdsValidMeaning(m: Mapping, d: Direction, data: TaxonomyData)
    ensures IdsValid(m, d, data) <==>
      match CategoryIdsFromTaxonomy(TaxonomyOf(m, d), data)
      case None => true
      case Some(index) => forall id :: References(m.rules, d, id) ==> id in index
  {
    match CategoryIdsFromTaxonomy(TaxonomyOf(m, d), data)
    case None =>
    case Some(index) =>
      if !IdsValid(m, d, data) {
        var id :| id in InvalidIdsOf(m.rules, d, index);
      }
  }

  /**
   * `validate_mapping_category_ids`: no entry when the version has no index
   * or every referenced id is known; otherwise exactly one entry carrying
   * the version, the direction and the distinct unknown ids.
   */
  function ValidateMappingCategoryIds(rules: seq<Rule>, d: Direction, version: string, data: TaxonomyData): (r: seq<InvalidEntry>)
    ensures |r| <= 1
    ensures CategoryIdsFromTaxonomy(version, data).None? ==> r == []
    ensures CategoryIdsFromTaxonomy(version, data).Some? ==>
      (r == [] <==> forall id :: References(rules, d, id) ==> id in CategoryIdsFromTaxonomy(version, data).value)
    ensures |r| == 1 ==> r[0].taxonomyVersion == version && r[0].direction == d && r[0].categoryIds != {}
    ensures |r| == 1 ==> forall id :: id in r[0].categoryIds <==>
      References(rules, d, id) && id !in CategoryIdsFromTaxonomy(version, data).value
  {
    match CategoryIdsFromTaxonomy(version, data)
    case None => []
    case Some(index) =>
      var invalid := InvalidIdsOf(rules, d, index);
      if invalid == {} then []
      else [InvalidEntry(version, d, invalid)]
  }

  /** Entry `e` is the one the check reports for side `d` of mapping `m`. */
  ghost predicate ReportsOn(e: InvalidEntry, m: Mapping, d: Direction, data: TaxonomyData) {
    var index := CategoryIdsFromTaxonomy(TaxonomyOf(m, d), data);
    && index.Some?
    && e.taxonomyVersion == TaxonomyOf(m, d)
    && e.direction == d
    && e.categoryIds == InvalidIdsOf(m.rules, d, index.value)
    && e.categoryIds != {}
  }

  /** The entries the check for side `d` of `m` contributes to the report. */
  function MappingEntries(m: Mapping, d: Direction, data: TaxonomyData): (r: seq<InvalidEntry>)
    ensures |r| <= 1
  {
    ValidateMappingCategoryIds(m.rules, d, TaxonomyOf(m, d), data)
  }

  /** A side contributes nothing exactly when it is valid, and otherwise the entry describing it. */
  lemma MappingEntriesMeaning(m: Mapping, d: Direction, data: TaxonomyData)
    ensures MappingEntries(m, d, data) == [] <==> IdsValid(m, d, data)
    ensures |MappingEntries(m, d, data)| == 1 ==> ReportsOn(MappingEntries(m, d, data)[0], m, d, data)
  {
    IdsValidMeaning(m, d, data);
  }

  /** What mapping `m` contributes: its input side's entries, then its output side's. */
  function SidesEntries(m: Mapping, data: TaxonomyData): (r: seq<InvalidEntry>)
    ensures |r| <= 2
    ensures r == [] <==> IdsValid(m, Input, data) && IdsValid(m, Output, data)
    ensures forall e :: e in r <==> e in MappingEntries(m, Input, data) || e in MappingEntries(m, Output, data)
    ensures forall d, e :: e in MappingEntries(m, d, data) ==> e in r
  {
    MappingEntriesMeaning(m, Input, data);
    MappingEntriesMeaning(m, Output, data);
    MappingEntries(m, Input, data) + MappingEntries(m, Output, data)
  }

  /** The whole invalid-id report: for each mapping in order, its input side and then its output side. */
  function InvalidCategoryReport(ms: seq<Mapping>, data: TaxonomyData): (r: seq<InvalidEntry>)
    ensures |r| <= 2 * |ms|
  {
    ConcatLength(ms, m => SidesEntries(m, data), 2);
    Concat(ms, m => SidesEntries(m, data))
  }

  /** The report is empty exactly when every side of every mapping is valid. */
  lemma ReportEmptyIff(ms: seq<Mapping>, data: TaxonomyData)
    ensures InvalidCategoryReport(ms, data) == [] <==> forall i, d :: 0 <= i < |ms| ==> IdsValid(ms[i], d, data)
  {
    ConcatEmptyIff(ms, m => SidesEntries(m, data));
    if !(InvalidCategoryReport(ms, data) == []) {
      var i :| 0 <= i < |ms| && SidesEntries(ms[i], data) != [];
      assert !IdsValid(ms[i], Input, data) || !IdsValid(ms[i], Output, data);
    }
  }

  /** Every entry a mapping contributes is the one owed by its input side or its output side. */
  lemma SidesSound(m: Mapping, data: TaxonomyData, e: InvalidEntry)
    requires e in SidesEntries(m, data)
    ensures ReportsOn(e, m, Input, data) || ReportsOn(e, m, Output, data)
  {
    var d := if e in MappingEntries(m, Input, data) then Input else Output;
    var own := MappingEntries(m, d, data);
    assert e in own;
    MappingEntriesMeaning(m, d, data);
    assert e == own[0];
  }

  /** Every entry of the report is the one the check owes some side of some mapping. */
  lemma ReportSound(ms: seq<Mapping>, data: TaxonomyData, e: InvalidEntry)
    requires e in InvalidCategoryReport(ms, data)
    ensures exists i, d :: 0 <= i < |ms| && ReportsOn(e, ms[i], d, data)
  {
    ConcatSound(ms, m => SidesEntries(m, data), e);
    var i :| 0 <= i < |ms| && e in SidesEntries(ms[i], data);
    SidesSound(ms[i], data, e);
    if ReportsOn(e, ms[i], Input, data) {
      assert 0 <= i < |ms| && ReportsOn(e, ms[i], Input, data);
    } else {
      assert 0 <= i < |ms| && ReportsOn(e, ms[i], Output, data);
    }
  }

  /** Every invalid side of every mapping is reported, by the entry describing it. */
  lemma ReportComplete(ms: seq<Mapping>, data: TaxonomyData, i: int, d: Direction)
    requires 0 <= i < |ms| && !IdsValid(ms[i], d, data)
    ensures exists e :: e in InvalidCategoryReport(ms, data) && ReportsOn(e, ms[i], d, data)
  {
    MappingEntriesMeaning(ms[i], d, data);
    var e := MappingEntries(ms[i], d, data)[0];
    ConcatComplete(ms, m => SidesEntries(m, data), i, e);
  }

  /**
   * A single rule whose input category `x` is missing from the input index,
   * while the output side references only indexed ids, yields exactly one
   * entry, naming `x`.
   */
  lemma UnknownIdReportedOnce(m: Mapping, data: TaxonomyData, x: string, y: CategoryRef)
    requires m.rules == [Rule(Single(x), y)]
    requires CategoryIdsFromTaxonomy(m.inputTaxonomy, data).Some?
    requires x !in CategoryIdsFromTaxonomy(m.inputTaxonomy, data).value
    requires IdsValid(m, Output, data)
    ensures InvalidCategoryReport([m], data) == [InvalidEntry(m.inputTaxonomy, Input, {x})]
  {
    MappingEntriesMeaning(m, Output, data);
    var index := CategoryIdsFromTaxonomy(m.inputTaxonomy, data).value;
    assert InvalidIdsOf(m.rules, Input, index) == {x} by {
      assert InvalidIdsOf(m.rules[1..], Input, index) == {};
    }
    assert [m][1..] == [];
    assert Concat([m], m' => SidesEntries(m', data)) == SidesEntries(m, data) + Concat([], m' => SidesEntries(m', data));
  }
}
