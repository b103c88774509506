/**
 * The missing-mapping check: every category of a canonical source
 * taxonomy must be the input of some rule or be listed as intentionally
 * unmapped (the "every Shopify category has corresponding channel
 * mappings" test).
 */
module MissingMappings {
  import opened Wrappers
  import opened Strings
  import opened Taxonomy
  import opened Mappings
  import opened Exclusions
  import opened Reports

  /** One report entry: the last segments of the ids a mapping leaves uncovered. */
  datatype MissingEntry = MissingEntry(inputTaxonomy: string, outputTaxonomy: string, missingCategoryIds: set<string>)

  /**
   * The exclusion list as used for subtraction: qualified with the category
   * namespace when the first id of the index is qualified, and dropped
   * (`None`) otherwise or when there is no list. Taking the first id of an
   * empty index raises. String interpolation renders a numeric id in
   * decimal, so `123` and `"123"` qualify to the same id.
   */
  function QualifiedExclusions(unmapped: Option<seq<ChannelId>>, order: seq<string>): (r: Result<Option<set<string>>, CheckError>)
    ensures r.Err? <==> unmapped.Some? && |order| == 0
    ensures r.Err? ==> r.error == NoFirstCanonicalId
    ensures r.Ok? && r.value.Some? <==> unmapped.Some? && |order| > 0 && Contains(order[0], CategoryGidPrefix)
    ensures r.Ok? && r.value.Some? ==>
      forall id :: id in r.value.value <==> exists x :: x in unmapped.value && id == CategoryGidPrefix + ChannelIdString(x)
  {
    match unmapped
    case None => Ok(None)
    case Some(xs) =>
      if |order| == 0 then Err(NoFirstCanonicalId)
      else if Contains(order[0], CategoryGidPrefix) then Ok(Some(set x | x in xs :: CategoryGidPrefix + ChannelIdString(x)))
      else Ok(None)
  }

  /**
   * A numeric exclusion qualifies to the same id as its decimal string,
   * so the missing-mapping check treats `123` and `"123"` alike.
   */
  lemma NumericExclusionQualifiesAsDigits(n: int, order: seq<string>)
    requires |order| > 0 && Contains(order[0], CategoryGidPrefix)
    ensures QualifiedExclusions(Some([IntId(n)]), order) == QualifiedExclusions(Some([StrId(IntToString(n))]), order)
    ensures QualifiedExclusions(Some([IntId(n)]), order) == Ok(Some({CategoryGidPrefix + IntToString(n)}))
  {
    var id := CategoryGidPrefix + IntToString(n);
    assert ChannelIdString(IntId(n)) == ChannelIdString(StrId(IntToString(n)));
    assert (set x | x in [IntId(n)] :: CategoryGidPrefix + ChannelIdString(x)) == {id};
    assert (set x | x in [StrId(IntToString(n))] :: CategoryGidPrefix + ChannelIdString(x)) == {id};
  }

  /** The check looks at `m` at all: its input is canonical-namespaced and has an index. */
  ghost predicate Checked(m: Mapping, data: TaxonomyData) {
    IsShopify(m.inputTaxonomy) && IndexOrder(m.inputTaxonomy, data).Some?
  }

  /** The exclusion list exists and the index's first id carries the category namespace. */
  ghost predicate ExclusionsApply(m: Mapping, data: TaxonomyData, files: RuleFiles) {
    && Checked(m, data)
    && ExclusionList(m, files).Some?
    && |IndexOrder(m.inputTaxonomy, data).value| > 0
    && Contains(IndexOrder(m.inputTaxonomy, data).value[0], CategoryGidPrefix)
  }

  /** `id` is covered by `m`'s exclusion list once that list is qualified. */
  ghost predicate Excluded(m: Mapping, data: TaxonomyData, files: RuleFiles, id: string) {
    ExclusionsApply(m, data, files) && exists x :: x in ExclusionList(m, files).value && id == CategoryGidPrefix + ChannelIdString(x)
  }

  /** `id` belongs to the input index but is neither a rule input nor excluded. */
  ghost predicate MissingId(m: Mapping, data: TaxonomyData, files: RuleFiles, id: string) {
    && Checked(m, data)
    && id in CategoryIdsFromTaxonomy(m.inputTaxonomy, data).value
    && !HasInput(m.rules, id)
    && !Excluded(m, data, files, id)
  }

  /** Ruby raises while checking `m`: the index is empty but a list exists, or an input category is an array. */
  ghost predicate Raises(m: Mapping, data: TaxonomyData, files: RuleFiles) {
    && Checked(m, data)
    && ((ExclusionList(m, files).Some? && |IndexOrder(m.inputTaxonomy, data).value| == 0) || !SingleInputs(m.rules))
  }

  /** Every category the check examines for `m` is covered. */
  ghost predicate Covered(m: Mapping, data: TaxonomyData, files: RuleFiles) {
    forall id :: !MissingId(m, data, files, id)
  }

  /**
   * The missing-mapping check for one mapping: it raises exactly in the
   * `Raises` cases; otherwise it reports nothing exactly when `m` is
   * covered, and an entry carries the last segments of exactly the missing
   * ids.
   */
  function MissingForMapping(m: Mapping, data: TaxonomyData, files: RuleFiles): (r: Result<Option<MissingEntry>, CheckError>)
    ensures !Checked(m, data) ==> r == Ok(None)
    ensures r.Err? <==> Raises(m, data, files)
    ensures r.Ok? ==> (r.value.None? <==> Covered(m, data, files))
    ensures r.Ok? && r.value.Some? ==>
      r.value.value.inputTaxonomy == m.inputTaxonomy && r.value.value.outputTaxonomy == m.outputTaxonomy
    ensures r.Ok? && r.value.Some? ==> forall s :: s in r.value.value.missingCategoryIds <==>
      exists id :: MissingId(m, data, files, id) && s == LastSegment(id)
  {
    if !IsShopify(m.inputTaxonomy) then Ok(None)
    else match IndexOrder(m.inputTaxonomy, data)
      case None => Ok(None)
      case Some(order) =>
        var all := set id | id in order;
        var unmapped := ExclusionList(m, files);
        match QualifiedExclusions(unmapped, order)
        case Err(e) => Err(e)
        case Ok(excl) =>
          match InputCategoryIds(m.rules)
          case Err(e) => Err(e)
          case Ok(inputs) =>
            var dropped := if excl.Some? then excl.value else {};
            var missing := all - (set id | id in inputs) - dropped;
            assert forall id :: id in missing <==> MissingId(m, data, files, id) by {
              forall id ensures id in missing <==> MissingId(m, data, files, id) {
                InputIdSet(m.rules, id);
              }
            }
            if missing == {} then Ok(None)
            else Ok(Some(MissingEntry(m.inputTaxonomy, m.outputTaxonomy, set id | id in missing :: LastSegment(id))))
  }

  /**
   * When the index's first id is bare (as a legacy channel list's ids are),
   * the exclusion list is ignored: every indexed id that no rule takes as
   * input is missing, listed or not.
   */
  lemma BareIndexIgnoresExclusions(m: Mapping, data: TaxonomyData, files: RuleFiles, id: string)
    requires Checked(m, data)
    requires |IndexOrder(m.inputTaxonomy, data).value| > 0
    requires !Contains(IndexOrder(m.inputTaxonomy, data).value[0], CategoryGidPrefix)
    ensures MissingId(m, data, files, id) <==>
      id in CategoryIdsFromTaxonomy(m.inputTaxonomy, data).value && !HasInput(m.rules, id)
  {
  }

  /** The whole missing-mapping report, mapping by mapping; the first raise aborts it. */
  function MissingMappingsReport(ms: seq<Mapping>, data: TaxonomyData, files: RuleFiles): (r: Result<seq<MissingEntry>, CheckError>)
    ensures r.Ok? ==> |r.value| <= |ms|
  {
    Gather(ms, m => MissingForMapping(m, data, files))
  }

  /**
   * The report raises exactly when checking some mapping raises; when it
   * completes, it is empty exactly when every mapping is covered, and each
   * of its entries lists exactly the missing ids of one mapping.
   */
  lemma MissingReportMeaning(ms: seq<Mapping>, data: TaxonomyData, files: RuleFiles)
    ensures MissingMappingsReport(ms, data, files).Err? <==> exists i :: 0 <= i < |ms| && Raises(ms[i], data, files)
    ensures MissingMappingsReport(ms, data, files).Ok? ==>
      (MissingMappingsReport(ms, data, files).value == [] <==> forall i :: 0 <= i < |ms| ==> Covered(ms[i], data, files))
    ensures MissingMappingsReport(ms, data, files).Ok? ==> forall e :: e in MissingMappingsReport(ms, data, files).value ==>
      exists i :: 0 <= i < |ms| && MissingForMapping(ms[i], data, files) == Ok(Some(e))
  {
    var check := m => MissingForMapping(m, data, files);
    GatherRaisesIff(ms, check);
    if Gather(ms, check).Ok? {
      GatherEmptyIff(ms, check);
      forall e | e in Gather(ms, check).value
        ensures exists i :: 0 <= i < |ms| && MissingForMapping(ms[i], data, files) == Ok(Some(e))
      {
        GatherSound(ms, check, e);
      }
    }
  }

  /**
   * Every uncovered mapping is reported: when no mapping raises, the report
   * completes and holds the entry of each mapping that leaves some indexed
   * id missing.
   */
  lemma MissingReportComplete(ms: seq<Mapping>, data: TaxonomyData, files: RuleFiles, i: int)
    requires forall j :: 0 <= j < |ms| ==> !Raises(ms[j], data, files)
    requires 0 <= i < |ms| && !Covered(ms[i], data, files)
    ensures MissingMappingsReport(ms, data, files).Ok?
    ensures MissingForMapping(ms[i], data, files).Ok? && MissingForMapping(ms[i], data, files).value.Some?
    ensures MissingForMapping(ms[i], data, files).value.value in MissingMappingsReport(ms, data, files).value
  {
    var check := m => MissingForMapping(m, data, files);
    GatherRaisesIff(ms, check);
    assert check(ms[i]).Ok?;
    GatherComplete(ms, check, i);
  }
}
