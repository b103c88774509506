/**
 * The overlap check: no category may be both the input of a rule and
 * listed as intentionally unmapped for the same mapping (the "category IDs
 * cannot be presented in the rules input and unmapped_product_category_ids
 * at the same time" test).
 */
module Overlaps {
  import opened Wrappers
  import opened Strings
  import opened Mappings
  import opened Taxonomy
  import opened Exclusions
  import opened Reports

  /** One report entry: the ids a mapping both maps and excludes. */
  datatype OverlapEntry = OverlapEntry(inputTaxonomy: string, outputTaxonomy: string, overlappedCategoryIds: set<string>)

  /** `s` is the last segment of some rule's single input id. */
  ghost predicate InputSegment(rules: seq<Rule>, s: string) {
    exists i :: 0 <= i < |rules| && rules[i].input.Single? && LastSegment(rules[i].input.id) == s
  }

  /**
   * `s` is both a rule input (in last-segment form) and, as a string, on
   * `m`'s exclusion list. The intersection compares raw values, so a
   * numeric entry never equals a string segment.
   */
  ghost predicate Overlapping(m: Mapping, files: RuleFiles, s: string) {
    ExclusionList(m, files).Some? && StrId(s) in ExclusionList(m, files).value && InputSegment(m.rules, s)
  }

  /** Nothing `m` maps is also excluded. */
  ghost predicate Disjoint(m: Mapping, files: RuleFiles) {
    forall s :: !Overlapping(m, files, s)
  }

  /** `ids.map { _1.split("/").last }.to_set`. */
  function Segments(ids: seq<string>): set<string> {
    set id | id in ids :: LastSegment(id)
  }

  /** Every id's last segment is among the segments, and no segment contains a `/`. */
  lemma SegmentsMeaning(ids: seq<string>)
    ensures forall i :: 0 <= i < |ids| ==> LastSegment(ids[i]) in Segments(ids)
    ensures forall seg :: seg in Segments(ids) ==> '/' !in seg
  {
    var r := Segments(ids);
    forall i | 0 <= i < |ids|
      ensures LastSegment(ids[i]) in r
    {
      assert ids[i] in ids;
    }
    forall seg | seg in r
      ensures '/' !in seg
    {
      var id :| id in ids && LastSegment(id) == seg;
    }
  }

  /** The segment set of the input ids holds exactly the rules' input segments. */
  lemma SegmentsOfInputs(rules: seq<Rule>)
    requires InputCategoryIds(rules).Ok?
    ensures forall s :: s in Segments(InputCategoryIds(rules).value) <==> InputSegment(rules, s)
  {
    var inputs := InputCategoryIds(rules).value;
    forall s ensures s in Segments(inputs) <==> InputSegment(rules, s) {
      if InputSegment(rules, s) {
        var i :| 0 <= i < |rules| && rules[i].input.Single? && LastSegment(rules[i].input.id) == s;
        assert inputs[i] == rules[i].input.id;
      }
    }
  }

  /**
   * The overlap check for one mapping: it raises exactly when an input
   * category is an array; it reports nothing without an exclusion list;
   * otherwise it reports nothing exactly when the rule inputs and the list
   * are disjoint, and an entry carries exactly their intersection.
   */
  function OverlapForMapping(m: Mapping, files: RuleFiles): (r: Result<Option<OverlapEntry>, CheckError>)
    ensures r.Err? <==> !SingleInputs(m.rules)
    ensures SingleInputs(m.rules) && ExclusionList(m, files).None? ==> r == Ok(None)
    ensures r.Ok? ==> (r.value.None? <==> Disjoint(m, files))
    ensures r.Ok? && r.value.Some? ==>
      r.value.value.inputTaxonomy == m.inputTaxonomy && r.value.value.outputTaxonomy == m.outputTaxonomy
    ensures r.Ok? && r.value.Some? ==> forall s :: s in r.value.value.overlappedCategoryIds <==> Overlapping(m, files, s)
  {
    match InputCategoryIds(m.rules)
    case Err(e) => Err(e)
    case Ok(inputs) =>
      var segments := Segments(inputs);
      SegmentsOfInputs(m.rules);
      match ExclusionList(m, files)
      case None => Ok(None)
      case Some(xs) =>
        var overlapped := segments * (set x | x in xs && x.StrId? :: x.s);
        assert forall s :: s in overlapped <==> Overlapping(m, files, s);
        if overlapped == {} then
          assert Disjoint(m, files);
          Ok(None)
        else Ok(Some(OverlapEntry(m.inputTaxonomy, m.outputTaxonomy, overlapped)))
  }

  /** The whole overlap report, mapping by mapping; the first raise aborts it. */
  function OverlapReport(ms: seq<Mapping>, files: RuleFiles): (r: Result<seq<OverlapEntry>, CheckError>)
    ensures r.Ok? ==> |r.value| <= |ms|
  {
    Gather(ms, m => OverlapForMapping(m, files))
  }

  /**
   * The report raises exactly when some mapping has an array input
   * category; when it completes, it is empty exactly when every mapping's
   * inputs and exclusions are disjoint, and each entry is one mapping's
   * intersection.
   */
  lemma OverlapReportMeaning(ms: seq<Mapping>, files: RuleFiles)
    ensures OverlapReport(ms, files).Err? <==> exists i :: 0 <= i < |ms| && !SingleInputs(ms[i].rules)
    ensures OverlapReport(ms, files).Ok? ==>
      (OverlapReport(ms, files).value == [] <==> forall i :: 0 <= i < |ms| ==> Disjoint(ms[i], files))
    ensures OverlapReport(ms, files).Ok? ==> forall e :: e in OverlapReport(ms, files).value ==>
      exists i :: 0 <= i < |ms| && OverlapForMapping(ms[i], files) == Ok(Some(e))
  {
    var check := m => OverlapForMapping(m, files);
    GatherRaisesIff(ms, check);
    if Gather(ms, check).Ok? {
      GatherEmptyIff(ms, check);
      forall e | e in Gather(ms, check).value
        ensures exists i :: 0 <= i < |ms| && OverlapForMapping(ms[i], files) == Ok(Some(e))
      {
        GatherSound(ms, check, e);
      }
    }
  }

  /**
   * Mapping a category and also excluding it is always reported: if a
   * single-input rule maps `id` and the exclusion list names its last
   * segment, the mapping's entry includes that segment.
   */
  lemma MappedAndExcludedReported(m: Mapping, files: RuleFiles, i: int)
    requires SingleInputs(m.rules)
    requires 0 <= i < |m.rules|
    requires ExclusionList(m, files).Some? && StrId(LastSegment(m.rules[i].input.id)) in ExclusionList(m, files).value
    ensures OverlapForMapping(m, files).Ok? && OverlapForMapping(m, files).value.Some?
    ensures LastSegment(m.rules[i].input.id) in OverlapForMapping(m, files).value.value.overlappedCategoryIds
  {
    assert Overlapping(m, files, LastSegment(m.rules[i].input.id));
  }

  /**
   * A numeric entry of the exclusion list never overlaps: the intersection
   * compares it raw against string segments, so a list of numbers reports
   * nothing even when a rule maps the same digits.
   */
  lemma NumericExclusionsNeverOverlap(m: Mapping, files: RuleFiles)
    requires SingleInputs(m.rules)
    requires ExclusionList(m, files).Some?
    requires forall j :: 0 <= j < |ExclusionList(m, files).value| ==> ExclusionList(m, files).value[j].IntId?
    ensures OverlapForMapping(m, files) == Ok(None)
  {
    var xs := ExclusionList(m, files).value;
    forall s ensures StrId(s) !in xs {
      assert forall j :: 0 <= j < |xs| ==> xs[j] != StrId(s);
    }
  }

  /**
   * Every overlapping mapping is reported: when the report completes, it
   * holds the entry of each mapping whose inputs meet its exclusions.
   */
  lemma OverlapReportComplete(ms: seq<Mapping>, files: RuleFiles, i: int)
    requires OverlapReport(ms, files).Ok?
    requires 0 <= i < |ms| && !Disjoint(ms[i], files)
    ensures OverlapForMapping(ms[i], files).Ok? && OverlapForMapping(ms[i], files).value.Some?
    ensures OverlapForMapping(ms[i], files).value.value in OverlapReport(ms, files).value
  {
    var check := m => OverlapForMapping(m, files);
    GatherRaisesIff(ms, check);
    assert check(ms[i]).Ok?;
    GatherComplete(ms, check, i);
  }
}
