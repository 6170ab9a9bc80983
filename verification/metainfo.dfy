/** The baseline synthesizer `stage2_metainfo` of
    src/terra_appstream_helper/__init__.py (the variant `main` calls) and
    the document selection and stage order of `main`. */
module Metainfo {
  import opened Wrappers
  import opened Tree
  import opened Scanner
  import opened Synthesis

  /** `stage2_metainfo` of `__init__.py`. An unset or empty app id raises,
      so there is no document; otherwise the children appear in the order
      the source creates them. */
  function Stage2Metainfo(cfg: Config): (r: Result<Element, ConfigError>)
    ensures r.Failure? <==> !Truthy(cfg.appId)
    ensures r.Success? ==> r.value.tag == "component" && r.value.text == None
    ensures r.Success? ==> ("type" in r.value.attrs <==> Truthy(cfg.componentType)) && r.value.attrs.Keys <= {"type"}
    ensures r.Success? && Truthy(cfg.componentType) ==> r.value.attrs["type"] == cfg.componentType.value
    ensures r.Success? ==> |r.value.children| > 0 && r.value.children[0] == TextElement("metadata_license", MetadataLicense)
  {
    if !Truthy(cfg.appId) then
      Failure(MissingAppId)
    else
      Success(Element("component", RootAttrs(cfg), None, IdentityChildren(cfg) + DescriptiveChildren(cfg)))
  }

  /** The first four children: metadata licence, pretty name, id, project
      licence. */
  function IdentityChildren(cfg: Config): seq<Element>
    requires Truthy(cfg.appId)
  {
    LicensePiece() + TextPiece("name", cfg.namePretty) + IdPiece(cfg) + TextPiece("project_license", cfg.license)
  }

  /** The last four children: homepage, summary, description, developer. */
  function DescriptiveChildren(cfg: Config): seq<Element>
  {
    HomepagePiece(cfg) + TextPiece("summary", cfg.summary) + DescriptionPiece(cfg) + DeveloperPiece(cfg)
  }

  /** The first four children tagged `t`, read off the pieces. */
  function IdentityField(cfg: Config, t: string): seq<Element>
    requires Truthy(cfg.appId)
  {
    if t == "metadata_license" then LicensePiece()
    else if t == "name" then TextPiece("name", cfg.namePretty)
    else if t == "id" then IdPiece(cfg)
    else if t == "project_license" then TextPiece("project_license", cfg.license)
    else []
  }

  /** The last four children tagged `t`, read off the pieces. */
  function DescriptiveField(cfg: Config, t: string): seq<Element>
  {
    if t == "url" then HomepagePiece(cfg)
    else if t == "summary" then TextPiece("summary", cfg.summary)
    else if t == "description" then DescriptionPiece(cfg)
    else if t == "developer" then DeveloperPiece(cfg)
    else []
  }

  lemma IdentityTagged(cfg: Config, t: string)
    requires Truthy(cfg.appId)
    ensures Tagged(IdentityChildren(cfg), t) == IdentityField(cfg, t)
  {
    FourPiecesTagged(LicensePiece(), TextPiece("name", cfg.namePretty), IdPiece(cfg), TextPiece("project_license", cfg.license),
                     "metadata_license", "name", "id", "project_license", t);
  }

  lemma DescriptiveTagged(cfg: Config, t: string)
    ensures Tagged(DescriptiveChildren(cfg), t) == DescriptiveField(cfg, t)
  {
    FourPiecesTagged(HomepagePiece(cfg), TextPiece("summary", cfg.summary), DescriptionPiece(cfg), DeveloperPiece(cfg),
                     "url", "summary", "description", "developer", t);
  }

  /** The document's children tagged `t` are the two halves' fields `t`. */
  lemma TaggedIsField(cfg: Config, t: string)
    requires Truthy(cfg.appId)
    ensures Tagged(Stage2Metainfo(cfg).value.children, t) == IdentityField(cfg, t) + DescriptiveField(cfg, t)
  {
    TaggedConcat(IdentityChildren(cfg), DescriptiveChildren(cfg), t);
    IdentityTagged(cfg, t);
    DescriptiveTagged(cfg, t);
  }

  /** Identity fields of the baseline: one `CC0-1.0` metadata licence and
      a `<name>` only when a pretty name is set (this variant has no
      package-name fallback). */
  lemma Stage2Identity(cfg: Config)
    requires Truthy(cfg.appId)
    ensures
      var cs := Stage2Metainfo(cfg).value.children;
      && Tagged(cs, "metadata_license") == [TextElement("metadata_license", MetadataLicense)]
      && Tagged(cs, "name") == TextPiece("name", cfg.namePretty)
  {
    TaggedIsField(cfg, "metadata_license");
    TaggedIsField(cfg, "name");
  }

  /** Exactly one `<id>`: the app id with the package's channel suffix. */
  lemma Stage2Id(cfg: Config)
    requires Truthy(cfg.appId)
    ensures Tagged(Stage2Metainfo(cfg).value.children, "id") == [TextElement("id", ChannelId(cfg.appId.value, cfg.packageName))]
  {
    TaggedIsField(cfg, "id");
  }

  /** Descriptive fields of the baseline: licence, summary and homepage
      only when set; the description is the explicit one, else the summary;
      a developer only with a developer name. */
  lemma Stage2Descriptive(cfg: Config)
    requires Truthy(cfg.appId)
    ensures
      var cs := Stage2Metainfo(cfg).value.children;
      && Tagged(cs, "project_license") == TextPiece("project_license", cfg.license)
      && Tagged(cs, "summary") == TextPiece("summary", cfg.summary)
      && Tagged(cs, "url") == HomepagePiece(cfg)
      && Tagged(cs, "description") == DescriptionPiece(cfg)
      && Tagged(cs, "developer") == DeveloperPiece(cfg)
  {
    TaggedIsField(cfg, "project_license");
    TaggedIsField(cfg, "summary");
    TaggedIsField(cfg, "url");
    TaggedIsField(cfg, "description");
    TaggedIsField(cfg, "developer");
  }

  /** Every element of the baseline is a singleton: no tag occurs twice
      among the root's children. */
  lemma Stage2Singletons(cfg: Config, t: string)
    requires Truthy(cfg.appId)
    ensures |Tagged(Stage2Metainfo(cfg).value.children, t)| <= 1
  {
    TaggedIsField(cfg, t);
    if t in {"metadata_license", "name", "id", "project_license"} {
      assert DescriptiveField(cfg, t) == [];
    } else {
      assert IdentityField(cfg, t) == [];
    }
  }

  // ---------------------------------------------------------------------
  // main

  /** The base document of `main`: the override when given, else the
      document found in the buildroot, else an empty `<component>`. */
  function SelectBase(override: Option<Element>, existing: Option<Element>): (r: Element)
    ensures override.Some? ==> r == override.value
    ensures override.None? && existing.Some? ==> r == existing.value
    ensures override.None? && existing.None? ==> r == Empty("component")
  {
    if override.Some? then override.value
    else if existing.Some? then existing.value
    else Empty("component")
  }

  /** The stages of `main` after loading: pick the base, merge the existing
      document into an override, merge in the baseline, then scan. `merge`
      stands for `merge_xml`, whose definition is not part of this model.
      The only failure is the missing app id, and the scanned entries are
      the last of the `<provides>` entries. */
  function Pipeline(
    override: Option<Element>,
    existing: Option<Element>,
    cfg: Config,
    versionEnv: Option<string>,
    files: seq<FileRecord>,
    merge: (Element, Element) -> Element): (r: Result<Element, ConfigError>)
    ensures r.Failure? <==> !Truthy(cfg.appId)
    ensures r.Success? ==> FindRelease(r.value, PackageVersion(versionEnv))
    ensures r.Success? ==>
      var provided := Under(r.value, "provides");
      |Entries(files)| <= |provided| && provided[|provided| - |Entries(files)|..] == Entries(files)
  {
    var base := SelectBase(override, existing);
    var base := if override.Some? && existing.Some? then merge(base, existing.value) else base;
    match Stage2Metainfo(cfg)
    case Failure(e) => Failure(e)
    case Success(stage2) =>
      var merged := merge(base, stage2);
      ScanEndsWithEntries(merged, versionEnv, files);
      Success(ScanInstalledFiles(Some(merged), versionEnv, files).value)
  }

  /** After the scan, the walk's entries are the last of the `<provides>`
      entries, whatever the document held before. */
  lemma ScanEndsWithEntries(doc: Element, versionEnv: Option<string>, files: seq<FileRecord>)
    ensures
      var r := ScanInstalledFiles(Some(doc), versionEnv, files).value;
      var provided := Under(r, "provides");
      FindRelease(r, PackageVersion(versionEnv))
      && |Entries(files)| <= |provided| && provided[|provided| - |Entries(files)|..] == Entries(files)
  {
    var provided := Under(ScanInstalledFiles(Some(doc), versionEnv, files).value, "provides");
    assert provided == Under(doc, "provides") + Entries(files);
    assert provided[|provided| - |Entries(files)|..] == Entries(files);
  }
}
