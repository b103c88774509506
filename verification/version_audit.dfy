/**
 * The version audit: every canonical version named by a `*_shopify.yml`
 * rule file, the legacy directory's included, must be the published
 * canonical version, except the frozen legacy version (the "Shopify
 * taxonomy version is in consistent between VERSION file and mappings"
 * test).
 */
module VersionAudit {
  import opened Strings
  import opened Taxonomy

  /** The two version fields of one `*_shopify.yml` rule file, with its path. */
  datatype RuleFileHeader = RuleFileHeader(path: string, inputTaxonomy: string, outputTaxonomy: string)

  /** One report entry: a rule file and the drifting version it declares. */
  datatype Drift = Drift(filePath: string, taxonomyVersion: string)

  /** The published canonical version, from the raw contents of the `VERSION` file. */
  function ExpectedVersion(versionFile: string): (r: string)
    ensures IsPrefix("shopify/", r)
    ensures r[|"shopify/"|..] == Strip(versionFile)
  {
    "shopify/" + Strip(versionFile)
  }

  /** The audit flags version `v` against the expected version `expected`. */
  predicate Flagged(v: string, expected: string) {
    IsShopify(v) && !IsLegacy(v) && v != expected
  }

  /** Exactly current canonical versions that differ from the published one are flagged. */
  lemma FlaggedIsCurrentDrift(v: string, expected: string)
    ensures Flagged(v, expected) <==> KindOf(v) == Current && v != expected
  {
  }

  /** Rule file `f` declares `v` as its input or output version. */
  predicate Declares(f: RuleFileHeader, v: string) {
    v == f.inputTaxonomy || v == f.outputTaxonomy
  }

  /** The entries one rule file contributes: its input version, then its output version, when flagged. */
  function FileDrifts(f: RuleFileHeader, expected: string): (r: seq<Drift>)
    ensures |r| <= 2
    ensures forall d :: d in r <==> d.filePath == f.path && Declares(f, d.taxonomyVersion) && Flagged(d.taxonomyVersion, expected)
  {
    (if Flagged(f.inputTaxonomy, expected) then [Drift(f.path, f.inputTaxonomy)] else []) +
    (if Flagged(f.outputTaxonomy, expected) then [Drift(f.path, f.outputTaxonomy)] else [])
  }

  /** File `i` of `files` owes the report entry `d`. */
  ghost predicate Owed(files: seq<RuleFileHeader>, i: int, d: Drift, expected: string) {
    0 <= i < |files| && d.filePath == files[i].path && Declares(files[i], d.taxonomyVersion) && Flagged(d.taxonomyVersion, expected)
  }

  /** A file of `files` owes `d` exactly when the first file does or one of the rest does. */
  lemma OwedSplit(files: seq<RuleFileHeader>, expected: string)
    requires |files| > 0
    ensures forall d :: (exists i :: Owed(files, i, d, expected)) <==>
      Owed(files, 0, d, expected) || exists j :: Owed(files[1..], j, d, expected)
  {
    forall d ensures (exists i :: Owed(files, i, d, expected)) <==> Owed(files, 0, d, expected) || exists j :: Owed(files[1..], j, d, expected) {
      if exists j :: Owed(files[1..], j, d, expected) {
        var j :| Owed(files[1..], j, d, expected);
        assert Owed(files, j + 1, d, expected);
      }
      if exists i :: Owed(files, i, d, expected) {
        var i :| Owed(files, i, d, expected);
        if i > 0 {
          assert Owed(files[1..], i - 1, d, expected);
        }
      }
    }
  }

  /** The entries the rule files `files` contribute against `expected`, in file order. */
  function DriftsOf(files: seq<RuleFileHeader>, expected: string): (r: seq<Drift>)
    ensures |r| <= 2 * |files|
    ensures forall d :: d in r <==> exists i :: Owed(files, i, d, expected)
    decreases |files|
  {
    if |files| == 0 then []
    else
      var rest := DriftsOf(files[1..], expected);
      OwedSplit(files, expected);
      var here := FileDrifts(files[0], expected);
      assert forall d :: d in here <==> Owed(files, 0, d, expected);
      assert forall d :: d in here + rest <==> d in here || d in rest;
      here + rest
  }

  /**
   * The audit over all rule files, in file order: an entry is reported
   * exactly for each file and declared version that is flagged against the
   * published version.
   */
  function AuditVersions(versionFile: string, files: seq<RuleFileHeader>): (r: seq<Drift>)
    ensures |r| <= 2 * |files|
    ensures forall d :: d in r <==> exists i :: Owed(files, i, d, ExpectedVersion(versionFile))
  {
    DriftsOf(files, ExpectedVersion(versionFile))
  }

  /** The audit is clean exactly when every file declares only the published, legacy or channel versions. */
  lemma AuditCleanIff(versionFile: string, files: seq<RuleFileHeader>)
    ensures AuditVersions(versionFile, files) == [] <==>
      forall i :: 0 <= i < |files| ==>
        !Flagged(files[i].inputTaxonomy, ExpectedVersion(versionFile)) &&
        !Flagged(files[i].outputTaxonomy, ExpectedVersion(versionFile))
  {
    var r := AuditVersions(versionFile, files);
    if r != [] {
      assert r[0] in r;
    }
    forall i | 0 <= i < |files| && Flagged(files[i].inputTaxonomy, ExpectedVersion(versionFile))
      ensures r != []
    {
      assert Owed(files, i, Drift(files[i].path, files[i].inputTaxonomy), ExpectedVersion(versionFile));
    }
    forall i | 0 <= i < |files| && Flagged(files[i].outputTaxonomy, ExpectedVersion(versionFile))
      ensures r != []
    {
      assert Owed(files, i, Drift(files[i].path, files[i].outputTaxonomy), ExpectedVersion(versionFile));
    }
  }
}
