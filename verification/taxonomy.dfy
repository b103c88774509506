/**
 * Taxonomy versions and the category-id index built for each of them
 * (`category_ids_from_taxonomy` in the mapping validation test).
 */
module Taxonomy {
  import opened Wrappers
  import opened Strings

  /** The namespace of the first-party (canonical) taxonomy. */
  const ShopifyNamespace: string := "shopify"

  /** The frozen historical canonical version that channels not yet migrated are mapped against. */
  const LegacyVersion: string := "shopify/2022-02"

  /** The namespace that qualifies canonical category ids. */
  const CategoryGidPrefix: string := "gid://shopify/TaxonomyCategory/"

  /** The version string names the canonical taxonomy (any tag, legacy included). */
  predicate IsShopify(v: string) {
    Contains(v, ShopifyNamespace)
  }

  /** The version string names the frozen legacy canonical version. */
  predicate IsLegacy(v: string) {
    Contains(v, LegacyVersion)
  }

  /** The version is indexed from the canonical category export rather than from a channel list. */
  predicate UsesCanonicalIndex(v: string) {
    IsShopify(v) && !IsLegacy(v)
  }

  /** A legacy version always belongs to the canonical namespace. */
  lemma LegacyIsShopify(v: string)
    ensures IsLegacy(v) ==> IsShopify(v)
  {
    if IsLegacy(v) {
      ContainsPrefixOf(v, LegacyVersion, ShopifyNamespace);
    }
  }

  /** The three kinds of taxonomy version the checker distinguishes by substring tests. */
  datatype VersionKind = Current | Legacy | Channel

  /** Classifies a version string once, so that every check site agrees. */
  function KindOf(v: string): (k: VersionKind)
    ensures k == Current <==> UsesCanonicalIndex(v)
    ensures k == Legacy <==> IsLegacy(v)
    ensures k == Channel <==> !IsShopify(v)
  {
    LegacyIsShopify(v);
    if IsLegacy(v) then Legacy else if IsShopify(v) then Current else Channel
  }

  /** An `id` entry of a channel's `full_names.yml`: YAML may give it as a number or as a string. */
  datatype ChannelId = IntId(n: int) | StrId(s: string)

  /** Ruby's `entry["id"].to_s`. */
  function ChannelIdString(c: ChannelId): (r: string)
    ensures c.StrId? ==> r == c.s
    ensures c.IntId? ==> r == IntToString(c.n)
  {
    match c
    case IntId(n) => IntToString(n)
    case StrId(s) => s
  }

  /** Numeric channel ids keep their identity once turned into strings. */
  lemma ChannelIdStringInjectiveOnNumbers(a: int, b: int)
    requires ChannelIdString(IntId(a)) == ChannelIdString(IntId(b))
    ensures a == b
  {
    IntToStringInjective(a, b);
  }

  /** One vertical of the canonical category export, with the ids of its categories in file order. */
  datatype Vertical = Vertical(categoryIds: seq<string>)

  /**
   * What the index builder can read: the canonical category export
   * (`dist/en/categories.json`), and the channel category lists
   * (`full_names.yml`) that exist, keyed by their path.
   */
  datatype TaxonomyData = TaxonomyData(verticals: seq<Vertical>, fullNames: map<string, seq<ChannelId>>)

  /** Where a non-canonical version's category list lives. */
  function FullNamesPath(v: string): (r: string)
    ensures IsPrefix("data/integrations/" + v, r)
    ensures |r| >= |"/full_names.yml"| && r[|r| - |"/full_names.yml"|..] == "/full_names.yml"
  {
    ConcatParts("data/integrations/" + v, "/full_names.yml");
    "data/integrations/" + v + "/full_names.yml"
  }

  /** All canonical category ids, vertical by vertical, in insertion order. */
  function CanonicalIds(vs: seq<Vertical>): (r: seq<string>)
    ensures forall id :: id in r <==> exists i :: 0 <= i < |vs| && id in vs[i].categoryIds
    ensures |vs| > 0 && |vs[0].categoryIds| > 0 ==> |r| > 0 && r[0] == vs[0].categoryIds[0]
  {
    if |vs| == 0 then [] else vs[0].categoryIds + CanonicalIds(vs[1..])
  }

  /** A channel list's ids converted to strings, in file order. */
  function ChannelIds(entries: seq<ChannelId>): (r: seq<string>)
    ensures |r| == |entries|
    ensures forall j :: 0 <= j < |entries| ==> r[j] == ChannelIdString(entries[j])
  {
    seq(|entries|, j requires 0 <= j < |entries| => ChannelIdString(entries[j]))
  }

  /**
   * The ids `category_ids_from_taxonomy` inserts into its set, in insertion
   * order (so that `Set#first` can be modelled), or `None` when the version
   * has no category list to read.
   */
  function IndexOrder(v: string, data: TaxonomyData): (r: Option<seq<string>>)
    ensures r.None? <==> !UsesCanonicalIndex(v) && FullNamesPath(v) !in data.fullNames
  {
    if UsesCanonicalIndex(v) then Some(CanonicalIds(data.verticals))
    else if FullNamesPath(v) in data.fullNames then Some(ChannelIds(data.fullNames[FullNamesPath(v)]))
    else None
  }

  /** The category-id index for a taxonomy version, or `None` when there is none to validate against. */
  function CategoryIdsFromTaxonomy(v: string, data: TaxonomyData): (r: Option<set<string>>)
    ensures r.None? <==> !UsesCanonicalIndex(v) && FullNamesPath(v) !in data.fullNames
  {
    match IndexOrder(v, data)
    case None => None
    case Some(ids) => Some(set id | id in ids)
  }

  /**
   * A current canonical version's index is the union of the category ids
   * of all verticals; any other version's index holds exactly the
   * stringified ids of its channel list.
   */
  lemma IndexContents(v: string, data: TaxonomyData, id: string)
    ensures UsesCanonicalIndex(v) ==>
      (CategoryIdsFromTaxonomy(v, data).Some? &&
      (id in CategoryIdsFromTaxonomy(v, data).value <==>
        exists i :: 0 <= i < |data.verticals| && id in data.verticals[i].categoryIds))
    ensures !UsesCanonicalIndex(v) && FullNamesPath(v) in data.fullNames ==>
      (CategoryIdsFromTaxonomy(v, data).Some? &&
      (id in CategoryIdsFromTaxonomy(v, data).value <==>
        exists j :: 0 <= j < |data.fullNames[FullNamesPath(v)]| && id == ChannelIdString(data.fullNames[FullNamesPath(v)][j])))
  {
  }

  /** The canonical index is the same whichever current canonical version asks for it. */
  lemma CanonicalIndexShared(v: string, w: string, data: TaxonomyData)
    requires KindOf(v) == Current && KindOf(w) == Current
    ensures CategoryIdsFromTaxonomy(v, data) == CategoryIdsFromTaxonomy(w, data)
  {
  }
}
