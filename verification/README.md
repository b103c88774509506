# Taxonomy mapping consistency checker — Dafny model

This project models the mapping consistency checker of the product taxonomy
repository, together with two smaller pieces of the data model it sits on.

The checker validates the declared mappings between taxonomy versions.
Each mapping has an input version, an output version and a list of rules.
Every rule maps an input category reference to an output category reference.
A reference is a single `{id}` entry or an array of them.
The checker runs four checks:

- **invalid ids**: every category a rule references, on either side, must exist in that side's category index;
- **missing mappings**: every category of a canonical input index must be a rule input or be listed in the exclusion list (`unmapped_product_category_ids`) of the governing rule file;
- **overlaps**: no category may be both a rule input and on the exclusion list;
- **version audit**: every canonical version a `*_shopify.yml` rule file declares must be the published version, except the frozen legacy version `shopify/2022-02`.

Around them sit the **index builder** and the **exclusion resolver**.
The index builder uses the canonical category export for current canonical versions and the channel's `full_names.yml` list otherwise.
The exclusion resolver picks the rule file whose exclusion list applies.

The model is functional.
Parsed inputs are immutable datatypes.
The file system is a pair of maps from repository-relative paths to parsed files.
Every check is a pure function whose contract states its meaning as a set characterisation.
Lemmas relate each per-mapping check to the whole report.
Two Ruby exceptions are modelled as `Err` values.
One arises when an input category is an array.
The other arises when `.first` is taken of an empty canonical index.
A channel version whose `full_names.yml` is missing also makes Ruby raise.
The model does not raise there: the index is `None` and the version goes unchecked (see "## Left out").

Two smaller cores are modelled too:

- `Property` delegates `gid`, `name` and `property_values` along its parent chain.
  A property is an inductive record with an optional loaded parent, so every chain is finite and acyclic.
- `ExtendedPropertySerializer` renames `parent_friendly_id` to `values_from` when it serializes and back when it deserializes.

Modules: `Wrappers` (Option, Result), `Strings` (Ruby string operations),
`Taxonomy` (versions, index builder), `Mappings` (mapping datatypes),
`Exclusions` (resolver), `Reports` (per-mapping report gathering),
`InvalidIds`, `MissingMappings`, `Overlaps`, `VersionAudit`, `Properties`,
`ExtendedPropertySerializer`.

## Behaviour of the code worth knowing

- The missing-mapping check runs for every input version containing `shopify`, `shopify/2022-02` included (test/integration/mapping_validation_test.rb:29).
  A legacy-input mapping is therefore checked against the legacy channel list.
- Bare exclusion ids are qualified with `gid://shopify/TaxonomyCategory/` only when the first id of the index contains that prefix.
  Otherwise the `if` yields `nil` and the exclusion list is dropped (lines 39-42).
  When the legacy list's first id is bare, every unmapped category of a legacy-input mapping is therefore reported, excluded or not.
  `MissingMappings.BareIndexIgnoresExclusions` states this.
- The overlap check takes the last segment of rule inputs only.
  It intersects them with the exclusion list as written (line 88), so a qualified exclusion id never overlaps.
- YAML may give an exclusion id as a number.
  The missing-mapping check interpolates each id into a string (line 41), so `123` and `"123"` exclude the same category (`MissingMappings.NumericExclusionQualifiesAsDigits`).
  The overlap check compares raw values (line 88), so a numeric exclusion never meets a rule input, even one with the same digits (`Overlaps.NumericExclusionsNeverOverlap`).
- `category_ids_from_taxonomy` always returns a set (lines 183 and 191).
  The `nil` guards of its callers (lines 32 and 148) are never taken.
- `abstract?` tests whether the parent record is present.
  The `abstract` scope tests whether the foreign key is set.
  The two agree only when every key resolves (`Properties.AbstractMatchesScope`).
  A dangling `parent_friendly_id` is in the `abstract` scope, yet such a property is concrete.

## Model

| member | source | states |
|---|---|---|
| Taxonomy.KindOf | test/integration/mapping_validation_test.rb:175 | the three version kinds are exactly the substring tests the checker repeats: current = contains `shopify` and not `shopify/2022-02`, legacy = contains `shopify/2022-02`, channel = no `shopify` |
| Taxonomy.LegacyIsShopify | test/integration/mapping_validation_test.rb:121 | a version naming the legacy version is always in the canonical namespace |
| Taxonomy.CanonicalIds | test/integration/mapping_validation_test.rb:176-183 | the canonical ids are exactly the category ids of all verticals, and the first id is the first vertical's first category |
| Taxonomy.ChannelIds | test/integration/mapping_validation_test.rb:185-191 | a channel list's ids, each converted with `to_s`, in file order |
| Taxonomy.UsesCanonicalIndex | test/integration/mapping_validation_test.rb:175 | a version is indexed from the canonical export when it contains `shopify` and not `shopify/2022-02`; its kind is fixed by `Taxonomy.KindOf` |
| Taxonomy.ChannelIdString | test/integration/mapping_validation_test.rb:189 | string ids are kept as they are; numeric ids become their `Integer#to_s` rendering |
| Taxonomy.ChannelIdStringInjectiveOnNumbers | test/integration/mapping_validation_test.rb:189 | distinct numeric channel ids stay distinct once stringified |
| Taxonomy.FullNamesPath | test/integration/mapping_validation_test.rb:186 | a channel version's list lies at `data/integrations/<version>` followed by `/full_names.yml` |
| Taxonomy.IndexOrder | test/integration/mapping_validation_test.rb:174-193 | the insertion-ordered ids exist exactly when the version is current canonical or its channel list exists |
| Taxonomy.CategoryIdsFromTaxonomy | test/integration/mapping_validation_test.rb:174-193 | the index is `None` exactly when the version is not current canonical and has no channel list |
| Taxonomy.IndexContents | test/integration/mapping_validation_test.rb:174-193 | a current canonical version's index is the union of all verticals' ids; any other version's index is the stringified ids of its channel list |
| Taxonomy.CanonicalIndexShared | test/integration/mapping_validation_test.rb:175-183 | every current canonical version gets the same index |
| Strings.Contains | test/integration/mapping_validation_test.rb:175 | Ruby's `String#include?` (also at lines 29, 121 and 196-204), scanning position by position; `ContainsIsOccurs` gives it its meaning |
| Strings.ContainsIsOccurs | test/integration/mapping_validation_test.rb:175 | the scanning `include?` agrees with the reference definition of substring occurrence |
| Strings.ContainsPrefixOf | test/integration/mapping_validation_test.rb:121 | a string containing `t` contains every prefix of `t` |
| Strings.LastSegment | test/integration/mapping_validation_test.rb:58 | `split("/").last` is the longest `/`-free suffix: it has no `/`, is a suffix, and is preceded by `/` unless it is the whole string |
| Strings.LastSegmentUnique | test/integration/mapping_validation_test.rb:79 | the last segment is the only string with those three properties |
| Strings.LastSegmentUnderNamespace | test/integration/mapping_validation_test.rb:41 | prefixing an id with a `/`-terminated namespace keeps its last segment |
| Strings.Strip | test/integration/mapping_validation_test.rb:115 | `strip` leaves a string with no whitespace or null at either end, framed in the input by only such characters |
| Strings.StripIdempotent | test/integration/mapping_validation_test.rb:115 | stripping twice equals stripping once |
| Strings.NatToString | app/models/property.rb:36 | `to_s` of a natural is a non-empty digit string without leading zeros |
| Strings.NatToStringRoundTrip | app/models/property.rb:36 | reading the decimal numeral back gives the number |
| Strings.IntToString | app/models/property.rb:36 | `to_s` of an integer starts with `-` exactly for negatives, and the digits after any sign have no leading zero and read back as the absolute value |
| Strings.IntToStringInjective | app/models/property.rb:36 | distinct integers render differently |
| Mappings.RefIds | test/integration/mapping_validation_test.rb:153-154 | a single category becomes a one-element list; an array is kept as is |
| Mappings.InputCategoryIds | test/integration/mapping_validation_test.rb:44-46 | the rule inputs' ids in rule order; an error exactly when some input category is an array |
| Mappings.InputIdSet | test/integration/mapping_validation_test.rb:44-46 | an id is among the input ids exactly when some rule's input is that single id |
| Exclusions.ResolveArtifact | test/integration/mapping_validation_test.rb:196-210 | canonical-to-canonical mappings use the legacy directory, with `to_shopify.yml` exactly when the input is the legacy version; canonical-to-channel uses the output's `from_shopify.yml`; otherwise the input's `to_shopify.yml` |
| Exclusions.ResolveSwapped | test/integration/mapping_validation_test.rb:196-210 | swapping a channel mapping's sides, or a legacy-to-canonical mapping's sides, selects the same directory and the opposite file |
| Exclusions.RenderPath | test/integration/mapping_validation_test.rb:212 | the path lies under `data/integrations/<integration>/mappings/` and ends in `_shopify.yml` |
| Exclusions.RenderPathInjective | test/integration/mapping_validation_test.rb:212 | distinct rule files have distinct `data/integrations/` paths |
| Exclusions.UnmappedCategoryIds | test/integration/mapping_validation_test.rb:212-216 | the exclusion list of the resolved file, or `None` exactly when that file is absent or lacks the key, with each id kept as YAML gives it, number or string |
| InvalidIds.InvalidIdsOf | test/integration/mapping_validation_test.rb:150-159 | the invalid set is exactly the distinct ids referenced on that side, single or in arrays, that the index lacks |
| InvalidIds.IdsValidMeaning | test/integration/mapping_validation_test.rb:150-171 | a side is valid exactly when it has no index or every id it references is indexed |
| InvalidIds.ValidateMappingCategoryIds | test/integration/mapping_validation_test.rb:145-172 | no entry without an index or when every id is known; otherwise one entry with that version, that direction and exactly the unknown ids |
| InvalidIds.MappingEntriesMeaning | test/integration/mapping_validation_test.rb:14-18 | one side of one mapping contributes nothing exactly when it is valid, and otherwise the entry with its version, direction and unknown ids |
| InvalidIds.SidesEntries | test/integration/mapping_validation_test.rb:13-19 | a mapping contributes at most two entries, none exactly when both sides are valid, and only its input side's and output side's entries |
| InvalidIds.InvalidCategoryReport | test/integration/mapping_validation_test.rb:11-19 | the report has at most two entries per mapping |
| InvalidIds.ReportEmptyIff | test/integration/mapping_validation_test.rb:11-24 | the report is empty exactly when every side of every mapping references only indexed ids |
| InvalidIds.SidesSound | test/integration/mapping_validation_test.rb:13-19 | every entry a mapping contributes is the one owed by its input side or its output side |
| InvalidIds.ReportSound | test/integration/mapping_validation_test.rb:11-19 | every entry is the one owed by some side of some mapping |
| InvalidIds.ReportComplete | test/integration/mapping_validation_test.rb:11-19 | every invalid side of every mapping is reported, by an entry carrying its version, direction and unknown ids |
| InvalidIds.UnknownIdReportedOnce | test/integration/mapping_validation_test.rb:144-171 | a single rule whose input `x` is not indexed, while the output side references only indexed ids, yields exactly one entry, naming the input version, the input direction and `{x}` |
| MissingMappings.MissingForMapping | test/integration/mapping_validation_test.rb:29-59 | mappings whose input is not canonical or has no index are skipped; an error exactly in the Ruby raise cases; otherwise no entry exactly when every indexed id is a rule input or a qualified exclusion, and the entry lists the last segments of exactly the missing ids |
| MissingMappings.QualifiedExclusions | test/integration/mapping_validation_test.rb:38-42 | with a list and an empty index, `.first` raises; the list is qualified with the category prefix exactly when the first indexed id contains that prefix, and is dropped otherwise or when there is no list; each entry is qualified through its `to_s` rendering, numbers in decimal |
| MissingMappings.NumericExclusionQualifiesAsDigits | test/integration/mapping_validation_test.rb:39-42 | a numeric exclusion qualifies to the same category id as its decimal string |
| MissingMappings.BareIndexIgnoresExclusions | test/integration/mapping_validation_test.rb:39-51 | when the index's first id is bare, the exclusion list is ignored: missing = indexed and not a rule input |
| MissingMappings.MissingMappingsReport | test/integration/mapping_validation_test.rb:27-60 | at most one entry per mapping |
| MissingMappings.MissingReportMeaning | test/integration/mapping_validation_test.rb:27-60 | the test raises exactly when some mapping raises; otherwise it reports nothing exactly when every mapping is covered, and each entry is one mapping's entry |
| MissingMappings.MissingReportComplete | test/integration/mapping_validation_test.rb:27-60 | when no mapping raises, the test completes and every mapping that leaves an indexed id missing has its entry in the report |
| Reports.GatherRaisesIff | test/integration/mapping_validation_test.rb:28-60 | gathering raises exactly when some mapping's check raises, with the first such error |
| Reports.GatherEmptyIff | test/integration/mapping_validation_test.rb:53-55 | a gathered report is empty exactly when no mapping yields an entry |
| Reports.GatherSound | test/integration/mapping_validation_test.rb:89-95 | every gathered entry was yielded by some mapping |
| Reports.GatherComplete | test/integration/mapping_validation_test.rb:91-95 | every yielded entry is gathered |
| Reports.Gather | test/integration/mapping_validation_test.rb:77-96 | at most one entry per mapping |
| Reports.Concat | test/integration/mapping_validation_test.rb:12-19 | the entries of each mapping, concatenated in mapping order; its meaning is stated by the four lemmas below |
| Reports.ConcatLength | test/integration/mapping_validation_test.rb:12-19 | at most `k` entries per mapping give at most `k` entries per mapping overall |
| Reports.ConcatEmptyIff | test/integration/mapping_validation_test.rb:12-24 | a concatenated report is empty exactly when no mapping yields an entry |
| Reports.ConcatSound | test/integration/mapping_validation_test.rb:12-19 | every entry of a concatenated report was yielded by some mapping |
| Reports.ConcatComplete | test/integration/mapping_validation_test.rb:12-19 | every entry any mapping yields is in the concatenated report |
| Overlaps.Segments | test/integration/mapping_validation_test.rb:79 | the set of last segments of the given ids; its meaning is stated by `Overlaps.SegmentsMeaning` |
| Overlaps.SegmentsMeaning | test/integration/mapping_validation_test.rb:79 | every id's last segment is in the set, and no member contains a `/`; `Overlaps.SegmentsOfInputs` gives the exact membership for rule inputs |
| Overlaps.SegmentsOfInputs | test/integration/mapping_validation_test.rb:78-80 | the segment set holds exactly the last segments of the rules' input ids |
| Overlaps.OverlapForMapping | test/integration/mapping_validation_test.rb:78-95 | an error exactly when some input category is an array; nothing without an exclusion list; otherwise no entry exactly when the input segments and the string entries of the list are disjoint, and the entry is exactly their intersection (numeric entries never match, as Ruby's raw `&` compares an Integer with Strings) |
| Overlaps.OverlapReport | test/integration/mapping_validation_test.rb:76-96 | at most one entry per mapping |
| Overlaps.OverlapReportMeaning | test/integration/mapping_validation_test.rb:76-96 | the test raises exactly when some input category is an array; otherwise it reports nothing exactly when every mapping is disjoint, and each entry is one mapping's intersection |
| Overlaps.OverlapReportComplete | test/integration/mapping_validation_test.rb:76-96 | when the test completes, every mapping whose inputs meet its exclusions has its entry in the report |
| Overlaps.MappedAndExcludedReported | test/integration/mapping_validation_test.rb:88-95 | a mapped input whose last segment is listed as a string exclusion always appears in the mapping's entry |
| Overlaps.NumericExclusionsNeverOverlap | test/integration/mapping_validation_test.rb:79-90 | an exclusion list of numbers yields no overlap entry whatever the rules map |
| VersionAudit.ExpectedVersion | test/integration/mapping_validation_test.rb:115 | the expected version is `shopify/` followed by the stripped `VERSION` contents |
| VersionAudit.Flagged | test/integration/mapping_validation_test.rb:121-123 | a version is flagged when it contains `shopify`, does not contain `shopify/2022-02` and differs from the expected version; `VersionAudit.FlaggedIsCurrentDrift` restates it through the version kinds |
| VersionAudit.FlaggedIsCurrentDrift | test/integration/mapping_validation_test.rb:121-123 | a version is flagged exactly when it is current canonical and differs from the expected one |
| VersionAudit.FileDrifts | test/integration/mapping_validation_test.rb:120-129 | a file yields an entry for exactly each declared version that is flagged, at most two |
| VersionAudit.OwedSplit | test/integration/mapping_validation_test.rb:119-129 | some file owes an entry exactly when the first file or one of the rest does |
| VersionAudit.DriftsOf | test/integration/mapping_validation_test.rb:118-129 | against a given expected version, an entry (file, version) is produced exactly when that file declares that version and it is flagged, at most two per file |
| VersionAudit.AuditVersions | test/integration/mapping_validation_test.rb:118-130 | an entry (file, version) is reported exactly when that file declares that version and it is flagged |
| VersionAudit.AuditCleanIff | test/integration/mapping_validation_test.rb:117-130 | the audit is clean exactly when no file declares a flagged version |
| Properties.IsAbstract | app/models/property.rb:57-59 | `abstract?` holds when the parent record is loaded; `Properties.AbstractMatchesScope` relates it to the `abstract` scope |
| Properties.ConcreteScope | app/models/property.rb:6 | the `concrete` scope is exactly the properties whose parent key is nil |
| Properties.AbstractScope | app/models/property.rb:6-7 | the `abstract` and `concrete` scopes partition the properties |
| Properties.AbstractMatchesScope | app/models/property.rb:57-59 | with every key resolved, `abstract?` holds exactly for the `abstract` scope |
| Properties.Root | app/models/property.rb:32-55 | the chain's top is concrete and an ancestor-or-self |
| Properties.RootUnique | app/models/property.rb:32-55 | the root is the only concrete property on the chain |
| Properties.RootShared | app/models/property.rb:32-55 | every property on a chain has the same root |
| Properties.Gid | app/models/property.rb:32-38 | the gid is `gid://shopify/TaxonomyAttribute/` followed by the root concrete ancestor's id |
| Properties.Name | app/models/property.rb:40-46 | the name is the root concrete ancestor's stored name |
| Properties.PropertyValues | app/models/property.rb:49-55 | the values are the root concrete ancestor's own values |
| Properties.DelegatesToParent | app/models/property.rb:32-55 | an abstract property reports its parent's gid, name and values; a concrete one reports its own |
| Properties.ChainAgrees | app/models/property.rb:32-55 | all properties on one chain present the same gid, name and values |
| Properties.GidIdentifiesRoot | app/models/property.rb:35-36 | two properties share a gid exactly when their roots share an id |
| ExtendedPropertySerializer.HashOf | app/serializers/source_data/extended_property_serializer.rb:10-14 | the written hash has exactly the keys `name`, `friendly_id`, `values_from` |
| ExtendedPropertySerializer.Serialize | app/serializers/source_data/extended_property_serializer.rb:9-15 | exactly the three keys, `values_from` is the parent key, and `name` is the root's stored name |
| ExtendedPropertySerializer.AttributesFrom | app/serializers/source_data/extended_property_serializer.rb:39-45 | `values_from` is read back as the parent key, `name` and `friendly_id` are copied, and missing keys read as nil |
| ExtendedPropertySerializer.AttributesRoundTrip | app/serializers/source_data/extended_property_serializer.rb:39-45 | writing attributes as a hash and reading them back restores them |
| ExtendedPropertySerializer.HashRoundTrip | app/serializers/source_data/extended_property_serializer.rb:39-45 | a hash with exactly the three keys is restored by reading and writing it |
| ExtendedPropertySerializer.SerializeRoundTrip | app/serializers/source_data/extended_property_serializer.rb:9-45 | reading back a serialized property keeps its friendly id and parent key; its name is the derived name, the parent's for an abstract property |
| ExtendedPropertySerializer.Deserialize | app/serializers/source_data/extended_property_serializer.rb:17-19 | the new property's attributes are exactly those read from the hash; `values_from` becomes the parent key; the attributes write back to the same hash exactly when it has the three keys |
| ExtendedPropertySerializer.DeserializeForInsertAll | app/serializers/source_data/extended_property_serializer.rb:21-23 | same length, and row `i` is the attributes read from hash `i` |

## Left out

- File, JSON and YAML access (`parse_json`, `parse_yaml`, `read_file`, `File.exist?`): inputs are in-memory maps keyed by repository-relative path. Absence is a missing key or `None`.
- The `glob` of `data/integrations/*/*/mappings/*_shopify.yml`: the audit takes the already-matched rule files as input.
- `puts` reporting and the final `assert` of each test: presentation only. The model returns the collected violation lists.
- Parsing failures of mapping artifacts: parsing is not part of the checker code, so the model starts from parsed datatypes.
- `Strings.LastSegment`: models `split("/").last` only for strings without a trailing `/`. For `""`, or for strings ending in `/`, Ruby drops the empty trailing fields or yields `nil`.
- `MissingMappings.MissingForMapping`: reports the missing last segments as a set. Ruby maps the missing set to an array, which repeats a segment shared by two ids.
- `Strings.Strip`: the stripped characters follow Ruby's documented set (null, tab, line feed, vertical tab, form feed, carriage return, space). Non-ASCII whitespace is not stripped in Ruby either.
- Ruby `Set` iteration order inside reported id sets: the sets are modelled as `set<string>`. Report order across mappings is kept.
- Idempotence of a run: every check is a pure function, so two runs over the same inputs agree by construction. No lemma is stated.
- `app/commands/sync_en_localizations_command.rb`: command-line and spinner plumbing with YAML writes; it is not part of the checker.
- ActiveRecord machinery of `Property`: `default_scope` ordering, `has_many`/`belongs_to` persistence, `validates`, and `property_value_friendly_ids=` (a database query).
- `deserialize_for_join_insert_all`: it needs a database lookup (`Property.find_by!`) and association loading.
- Exclusion ids of other YAML scalar kinds (floats, booleans, `null`) are not modelled: an exclusion id is an integer or a string, as a channel list id is.
- `Taxonomy.CategoryIdsFromTaxonomy`: returns `None` for a channel version without a `full_names.yml` list. Ruby raises there, inside `parse_yaml` or at `channel_taxonomy.each` (test/integration/mapping_validation_test.rb:187-188). `None` stands for the absent file, so the model reports nothing for such a side where Ruby aborts the test. The model keeps the callers' `nil` guards (lines 32 and 148) as written.
- Unsaved properties with a nil `id`, whose gid would end in an empty string: the model's stored properties always carry an integer id.
