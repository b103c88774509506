/**
 * The resolver that finds the rule file holding a mapping's
 * `unmapped_product_category_ids` exclusion list
 * (`unmapped_category_ids_for_mappings` in the mapping validation test).
 */
module Exclusions {
  import opened Wrappers
  import opened Strings
  import opened Taxonomy
  import opened Mappings

  /** The two rule files an integration keeps under its `mappings/` directory. */
  datatype Artifact = ToShopify | FromShopify

  /** A rule file, named by the integration version directory it lives in and its artifact. */
  datatype ArtifactPath = ArtifactPath(integration: string, artifact: Artifact)

  /**
   * A parsed rule file; `None` when its `unmapped_product_category_ids` key
   * is absent. YAML may give each listed id as a number or as a string.
   */
  datatype RuleFile = RuleFile(unmappedProductCategoryIds: Option<seq<ChannelId>>)

  /** The rule files that exist, keyed by their repository-relative path. */
  type RuleFiles = map<string, RuleFile>

  /** The part of an artifact's file name before `_shopify.yml`. */
  function Stem(a: Artifact): string {
    match a
    case ToShopify => "to"
    case FromShopify => "from"
  }

  /** The file name of an artifact: `to_shopify.yml` or `from_shopify.yml`. */
  function FileName(a: Artifact): string {
    Stem(a) + "_shopify.yml"
  }

  /** The repository-relative path of a rule file. */
  function RenderPath(p: ArtifactPath): (r: string)
    ensures IsPrefix("data/integrations/" + p.integration + "/mappings/", r)
    ensures |r| >= |"_shopify.yml"| && r[|r| - |"_shopify.yml"|..] == "_shopify.yml"
  {
    var dir := "data/integrations/" + p.integration + "/mappings/";
    ConcatParts(dir, FileName(p.artifact));
    ConcatParts(dir + Stem(p.artifact), "_shopify.yml");
    assert dir + FileName(p.artifact) == (dir + Stem(p.artifact)) + "_shopify.yml";
    dir + FileName(p.artifact)
  }

  /**
   * Which rule file governs the exclusions of a mapping from `input` to
   * `output`. Canonical-to-canonical mappings route through the legacy
   * version's files; otherwise the file belongs to the channel side.
   */
  function ResolveArtifact(input: string, output: string): (r: ArtifactPath)
    ensures IsShopify(input) && IsShopify(output) ==> r.integration == LegacyVersion
    ensures IsShopify(input) && !IsShopify(output) ==> r.integration == output
    ensures !IsShopify(input) ==> r.integration == input
    ensures r.artifact == ToShopify <==> !IsShopify(input) || (IsShopify(output) && input == LegacyVersion)
  {
    if IsShopify(input) && IsShopify(output) then
      ArtifactPath(LegacyVersion, if input == LegacyVersion then ToShopify else FromShopify)
    else if IsShopify(input) then
      ArtifactPath(output, FromShopify)
    else
      ArtifactPath(input, ToShopify)
  }

  /**
   * Swapping the two sides of a channel mapping, or of a mapping between
   * the legacy version and another canonical version, selects the same
   * integration directory and the opposite artifact.
   */
  lemma ResolveSwapped(a: string, b: string)
    requires IsShopify(a) != IsShopify(b) || (IsShopify(a) && IsShopify(b) && (a == LegacyVersion) != (b == LegacyVersion))
    ensures ResolveArtifact(a, b).integration == ResolveArtifact(b, a).integration
    ensures ResolveArtifact(a, b).artifact != ResolveArtifact(b, a).artifact
  {
  }

  /** The fifteenth character from the end of a rule file path tells the two artifacts apart. */
  lemma RenderMarker(p: ArtifactPath)
    ensures var s := RenderPath(p); |s| >= 15 && s[|s| - 15] == (if p.artifact == ToShopify then '/' else 'r')
  {
    var s := RenderPath(p);
    var head := "data/integrations/" + p.integration + "/mappings/" + Stem(p.artifact);
    assert s == head + "_shopify.yml";
    assert s[|s| - 15] == head[|head| - 3];
  }

  /** Distinct rule files have distinct paths, so no two resolutions share an exclusion list by accident. */
  lemma {:induction false} RenderPathInjective(p: ArtifactPath, q: ArtifactPath)
    requires RenderPath(p) == RenderPath(q)
    ensures p == q
  {
    var s := RenderPath(p);
    var pre := "data/integrations/";
    var mid := "/mappings/";
    if p.artifact == q.artifact {
      assert |p.integration| == |q.integration|;
      assert p.integration == s[|pre|..|pre| + |p.integration|];
      assert q.integration == s[|pre|..|pre| + |q.integration|];
    } else {
      RenderMarker(p);
      RenderMarker(q);
    }
  }

  /**
   * `unmapped_category_ids_for_mappings`: the exclusion list of the rule
   * file `ResolveArtifact` selects, or `None` when that file does not exist
   * or lacks the key.
   */
  function UnmappedCategoryIds(input: string, output: string, files: RuleFiles): (r: Option<seq<ChannelId>>)
    ensures var path := RenderPath(ResolveArtifact(input, output));
      r.Some? <==> path in files && files[path].unmappedProductCategoryIds.Some?
    ensures var path := RenderPath(ResolveArtifact(input, output));
      r.Some? ==> r.value == files[path].unmappedProductCategoryIds.value
  {
    var path := RenderPath(ResolveArtifact(input, output));
    if path in files then files[path].unmappedProductCategoryIds else None
  }

  /** The exclusion list that governs mapping `m`. */
  function ExclusionList(m: Mapping, files: RuleFiles): Option<seq<ChannelId>> {
    UnmappedCategoryIds(m.inputTaxonomy, m.outputTaxonomy, files)
  }
}
