/**
 * Parsed mapping definitions, as they appear in the aggregated mappings
 * export: an input and an output taxonomy version and an ordered list of
 * rules.
 */
module Mappings {
  import opened Wrappers

  /** A rule's `category` field: one `{id: ...}` entry, or an array of them. */
  datatype CategoryRef = Single(id: string) | Multiple(ids: seq<string>)

  /** Which side of a rule is examined. */
  datatype Direction = Input | Output

  /** One translation rule from an input category to output categories. */
  datatype Rule = Rule(input: CategoryRef, output: CategoryRef)

  /** A mapping between two taxonomy versions. */
  datatype Mapping = Mapping(inputTaxonomy: string, outputTaxonomy: string, rules: seq<Rule>)

  /** The errors Ruby raises while the checker walks a mapping. */
  datatype CheckError =
    | ArrayInputCategory    // `dig("input", "category", "id")` reaches an array: TypeError
    | NoFirstCanonicalId    // `.first` of an empty canonical index is nil: NoMethodError

  /** `rule[input_or_output]["category"]`. */
  function Side(rule: Rule, d: Direction): CategoryRef {
    match d
    case Input => rule.input
    case Output => rule.output
  }

  /** `mapping["input_taxonomy"]` or `mapping["output_taxonomy"]`. */
  function TaxonomyOf(m: Mapping, d: Direction): string {
    match d
    case Input => m.inputTaxonomy
    case Output => m.outputTaxonomy
  }

  /** A category reference normalised to a list (a single entry becomes a one-element list). */
  function RefIds(ref: CategoryRef): (ids: seq<string>)
    ensures ref.Single? ==> ids == [ref.id]
    ensures ref.Multiple? ==> ids == ref.ids
  {
    match ref
    case Single(id) => [id]
    case Multiple(ids) => ids
  }

  /** Some rule names `id` on side `d`, as a single reference or inside an array. */
  ghost predicate References(rules: seq<Rule>, d: Direction, id: string) {
    exists i :: 0 <= i < |rules| && id in RefIds(Side(rules[i], d))
  }

  /** Some rule's input is exactly the single category `id`. */
  ghost predicate HasInput(rules: seq<Rule>, id: string) {
    exists i :: 0 <= i < |rules| && rules[i].input == Single(id)
  }

  /** Every rule's input is a single category reference. */
  ghost predicate SingleInputs(rules: seq<Rule>) {
    forall i :: 0 <= i < |rules| ==> rules[i].input.Single?
  }

  /**
   * `rules.map { _1.dig("input", "category", "id") }`: the input category
   * ids in rule order, or the error Ruby raises when an input category is
   * an array.
   */
  function InputCategoryIds(rules: seq<Rule>): (r: Result<seq<string>, CheckError>)
    ensures r.Ok? <==> SingleInputs(rules)
    ensures r.Err? ==> r.error == ArrayInputCategory
    ensures r.Ok? ==> |r.value| == |rules|
    ensures r.Ok? ==> forall i :: 0 <= i < |rules| ==> rules[i].input == Single(r.value[i])
  {
    if |rules| == 0 then Ok([])
    else match rules[0].input
      case Multiple(_) => Err(ArrayInputCategory)
      case Single(id) =>
        match InputCategoryIds(rules[1..])
        case Err(e) => Err(e)
        case Ok(rest) =>
          assert forall i :: 1 <= i < |rules| ==> rules[i] == rules[1..][i - 1];
          Ok([id] + rest)
  }

  /** The set of input ids is exactly the ids of the rules' single inputs. */
  lemma InputIdSet(rules: seq<Rule>, id: string)
    requires InputCategoryIds(rules).Ok?
    ensures id in InputCategoryIds(rules).value <==> HasInput(rules, id)
  {
    var ids := InputCategoryIds(rules).value;
    if id in ids {
      var i :| 0 <= i < |ids| && ids[i] == id;
      assert rules[i].input == Single(id);
    }
  }
}
