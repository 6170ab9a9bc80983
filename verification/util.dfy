/** src/terra_appstream_helper/util.py: the component-type icon table and
    the richer `stage2_metainfo` variant (package-name fallback for the
    name, a derived stock icon, a version-control URL). */
module Util {
  import opened Wrappers
  import opened PyStrings
  import opened Tree
  import opened Synthesis

  /** The icon table of `get_icon_from_type`: component type to stock icon. */
  const IconTypeMap: map<string, string> := map[
    "runtime" := "application-x-executable",
    "console-application" := "terminal",
    "addon" := "package",
    "icon-theme" := "preferences-desktop-theme",
    "codec" := "multimedia-codec",
    "driver" := "computer",
    "repository" := "folder"
  ]

  /** `<icon type="stock">name</icon>`. */
  function StockIcon(name: string): Element {
    Element("icon", map["type" := "stock"], Some(name), [])
  }

  /** `get_icon_from_type`: a stock icon for the seven mapped component
      types, `None` for every other type. */
  function IconFromType(componentType: string): (r: Option<Element>)
    ensures r.Some? <==> componentType in {"runtime", "console-application", "addon", "icon-theme", "codec", "driver", "repository"}
    ensures r.Some? ==> r.value.tag == "icon" && r.value.attrs == map["type" := "stock"]
    ensures r.Some? ==> r.value.children == [] && r.value.text.Some? && r.value.text.value != ""
  {
    if componentType in IconTypeMap then Some(StockIcon(IconTypeMap[componentType])) else None
  }

  /** The table entry by entry, and two common types it does not cover. */
  lemma IconTable()
    ensures IconFromType("runtime") == Some(StockIcon("application-x-executable"))
    ensures IconFromType("console-application") == Some(StockIcon("terminal"))
    ensures IconFromType("addon") == Some(StockIcon("package"))
    ensures IconFromType("icon-theme") == Some(StockIcon("preferences-desktop-theme"))
    ensures IconFromType("codec") == Some(StockIcon("multimedia-codec"))
    ensures IconFromType("driver") == Some(StockIcon("computer"))
    ensures IconFromType("repository") == Some(StockIcon("folder"))
    ensures IconFromType("desktop-application") == None
    ensures IconFromType("library") == None
  {
  }

  /** A homepage that also names a version-control browser: it ends in
      `.git` or is on github.com or gitlab.com. */
  predicate IsForgeUrl(url: string) {
    EndsWith(url, ".git") || Contains(url, "github.com") || Contains(url, "gitlab.com")
  }

  /** The component type used for the icon: the configured one, else
      `console-application`. */
  function IconType(cfg: Config): string {
    if Truthy(cfg.componentType) then cfg.componentType.value else "console-application"
  }

  /** `<name>`, always created: the pretty name when set, else the package
      name as it is (possibly unset). */
  function NamePiece(cfg: Config): (r: seq<Element>)
    ensures PieceOf(r, "name") && |r| == 1
  {
    [Element("name", map[], if Truthy(cfg.namePretty) then cfg.namePretty else cfg.packageName, [])]
  }

  /** The icon looked up for the component type, when the table has one. */
  function IconPiece(cfg: Config): (r: seq<Element>)
    ensures PieceOf(r, "icon")
  {
    match IconFromType(IconType(cfg))
    case None => []
    case Some(icon) => [icon]
  }

  /** `<url type="vcs-browser">` repeating a forge homepage. */
  function VcsPiece(cfg: Config): (r: seq<Element>)
    ensures PieceOf(r, "url")
  {
    if Truthy(cfg.url) && IsForgeUrl(cfg.url.value) then [Url("vcs-browser", cfg.url.value)] else []
  }

  /** `stage2_metainfo` of `util.py`. An unset or empty app id raises, so
      there is no document; otherwise the children appear in the order the
      source creates them, and unlike the baseline a `<name>` always follows
      the metadata licence. */
  function Stage2Metainfo(cfg: Config): (r: Result<Element, ConfigError>)
    ensures r.Failure? <==> !Truthy(cfg.appId)
    ensures r.Success? ==> r.value.tag == "component" && r.value.text == None
    ensures r.Success? ==> ("type" in r.value.attrs <==> Truthy(cfg.componentType)) && r.value.attrs.Keys <= {"type"}
    ensures r.Success? && Truthy(cfg.componentType) ==> r.value.attrs["type"] == cfg.componentType.value
    ensures r.Success? ==> |r.value.children| > 1 && r.value.children[0] == TextElement("metadata_license", MetadataLicense)
    ensures r.Success? ==> r.value.children[1].tag == "name"
  {
    if !Truthy(cfg.appId) then
      Failure(MissingAppId)
    else
      Success(Element("component", RootAttrs(cfg), None, IdentityChildren(cfg) + DescriptiveChildren(cfg)))
  }

  /** The first five children: metadata licence, name, icon, id, project
      licence. */
  function IdentityChildren(cfg: Config): seq<Element>
    requires Truthy(cfg.appId)
  {
    LicensePiece() + NamePiece(cfg) + IconPiece(cfg) + IdPiece(cfg) + TextPiece("project_license", cfg.license)
  }

  /** The last five children: homepage, version-control URL, summary,
      description, developer. */
  function DescriptiveChildren(cfg: Config): seq<Element>
  {
    HomepagePiece(cfg) + VcsPiece(cfg) + TextPiece("summary", cfg.summary) + DescriptionPiece(cfg) + DeveloperPiece(cfg)
  }

  /** The first five children tagged `t`, read off the pieces. */
  function IdentityField(cfg: Config, t: string): seq<Element>
    requires Truthy(cfg.appId)
  {
    if t == "metadata_license" then LicensePiece()
    else if t == "name" then NamePiece(cfg)
    else if t == "icon" then IconPiece(cfg)
    else if t == "id" then IdPiece(cfg)
    else if t == "project_license" then TextPiece("project_license", cfg.license)
    else []
  }

  /** The last five children tagged `t`, read off the pieces. */
  function DescriptiveField(cfg: Config, t: string): seq<Element>
  {
    if t == "url" then HomepagePiece(cfg) + VcsPiece(cfg)
    else if t == "summary" then TextPiece("summary", cfg.summary)
    else if t == "description" then DescriptionPiece(cfg)
    else if t == "developer" then DeveloperPiece(cfg)
    else []
  }

  lemma IdentityTagged(cfg: Config, t: string)
    requires Truthy(cfg.appId)
    ensures Tagged(IdentityChildren(cfg), t) == IdentityField(cfg, t)
  {
    FivePiecesTagged(LicensePiece(), NamePiece(cfg), IconPiece(cfg), IdPiece(cfg), TextPiece("project_license", cfg.license),
                     "metadata_license", "name", "icon", "id", "project_license", t);
  }

  lemma DescriptiveTagged(cfg: Config, t: string)
    ensures Tagged(DescriptiveChildren(cfg), t) == DescriptiveField(cfg, t)
  {
    FivePiecesTagged(HomepagePiece(cfg), VcsPiece(cfg), TextPiece("summary", cfg.summary), DescriptionPiece(cfg), DeveloperPiece(cfg),
                     "url", "url", "summary", "description", "developer", t);
  }

  /** The document's children tagged `t` are the two halves' fields `t`. */
  lemma TaggedIsField(cfg: Config, t: string)
    requires Truthy(cfg.appId)
    ensures Tagged(Stage2Metainfo(cfg).value.children, t) == IdentityField(cfg, t) + DescriptiveField(cfg, t)
  {
    TaggedConcat(IdentityChildren(cfg), DescriptiveChildren(cfg), t);
    IdentityTagged(cfg, t);
    DescriptiveTagged(cfg, t);
  }

  /** Exactly one `CC0-1.0` metadata licence and exactly one `<name>`: the
      pretty name when set, else the package name (whose text is missing
      when the package name is unset too). */
  lemma Stage2Identity(cfg: Config)
    requires Truthy(cfg.appId)
    ensures
      var cs := Stage2Metainfo(cfg).value.children;
      && Tagged(cs, "metadata_license") == [TextElement("metadata_license", MetadataLicense)]
      && |Tagged(cs, "name")| == 1
      && Tagged(cs, "name")[0].text == (if Truthy(cfg.namePretty) then cfg.namePretty else cfg.packageName)
  {
    TaggedIsField(cfg, "metadata_license");
    TaggedIsField(cfg, "name");
  }

  /** Exactly one `<id>`: the app id with the package's channel suffix. */
  lemma Stage2Id(cfg: Config)
    requires Truthy(cfg.appId)
    ensures Tagged(Stage2Metainfo(cfg).value.children, "id") == [TextElement("id", ChannelId(cfg.appId.value, cfg.packageName))]
  {
    TaggedIsField(cfg, "id");
  }

  /** The icon is derived even without a component type, which then counts
      as a console application and gets the `terminal` icon; a set type
      gets an icon exactly when the table maps it. */
  lemma Stage2Icon(cfg: Config)
    requires Truthy(cfg.appId)
    ensures
      var icons := Tagged(Stage2Metainfo(cfg).value.children, "icon");
      && |icons| <= 1
      && (!Truthy(cfg.componentType) ==> icons == [StockIcon("terminal")])
      && (Truthy(cfg.componentType) ==>
            (|icons| == 1 <==> cfg.componentType.value in IconTypeMap)
            && (|icons| == 1 ==> icons[0] == StockIcon(IconTypeMap[cfg.componentType.value])))
  {
    TaggedIsField(cfg, "icon");
    IconPieceByType(cfg);
  }

  /** The icon piece on its own, by component type. */
  lemma IconPieceByType(cfg: Config)
    ensures |IconPiece(cfg)| <= 1
    ensures !Truthy(cfg.componentType) ==> IconPiece(cfg) == [StockIcon("terminal")]
    ensures Truthy(cfg.componentType) ==>
      (|IconPiece(cfg)| == 1 <==> cfg.componentType.value in IconTypeMap)
      && (|IconPiece(cfg)| == 1 ==> IconPiece(cfg)[0] == StockIcon(IconTypeMap[cfg.componentType.value]))
  {
    if !Truthy(cfg.componentType) {
      assert IconType(cfg) == "console-application";
      assert IconTypeMap["console-application"] == "terminal";
    }
  }

  /** No URL configured means no `<url>`; otherwise a homepage, followed by
      a version-control browser with the same text exactly for forge URLs. */
  lemma Stage2Urls(cfg: Config)
    requires Truthy(cfg.appId)
    ensures
      var urls := Tagged(Stage2Metainfo(cfg).value.children, "url");
      && (!Truthy(cfg.url) ==> urls == [])
      && (Truthy(cfg.url) ==> |urls| >= 1 && urls[0] == Url("homepage", cfg.url.value))
      && (Truthy(cfg.url) ==> (|urls| == 2 <==> IsForgeUrl(cfg.url.value)))
      && (|urls| == 2 ==> urls[1] == Url("vcs-browser", cfg.url.value))
      && |urls| <= 2
  {
    TaggedIsField(cfg, "url");
  }

  /** Licence and summary only when set; the description is the explicit
      one, else the summary; a developer only with a developer name. */
  lemma Stage2Descriptive(cfg: Config)
    requires Truthy(cfg.appId)
    ensures
      var cs := Stage2Metainfo(cfg).value.children;
      && Tagged(cs, "project_license") == TextPiece("project_license", cfg.license)
      && Tagged(cs, "summary") == TextPiece("summary", cfg.summary)
      && Tagged(cs, "description") == DescriptionPiece(cfg)
      && Tagged(cs, "developer") == DeveloperPiece(cfg)
  {
    TaggedIsField(cfg, "project_license");
    TaggedIsField(cfg, "summary");
    TaggedIsField(cfg, "description");
    TaggedIsField(cfg, "developer");
  }

  /** Every tag but `url` occurs at most once. */
  lemma Stage2Singletons(cfg: Config, t: string)
    requires Truthy(cfg.appId)
    requires t != "url"
    ensures |Tagged(Stage2Metainfo(cfg).value.children, t)| <= 1
  {
    TaggedIsField(cfg, t);
    if t in {"metadata_license", "name", "icon", "id", "project_license"} {
      assert DescriptiveField(cfg, t) == [];
    } else {
      assert IdentityField(cfg, t) == [];
    }
  }

  /** The URLs never repeat a `type`. */
  lemma Stage2UrlTypesDistinct(cfg: Config)
    requires Truthy(cfg.appId)
    ensures
      var urls := Tagged(Stage2Metainfo(cfg).value.children, "url");
      forall i, j :: 0 <= i < j < |urls| ==> "type" in urls[i].attrs && "type" in urls[j].attrs && urls[i].attrs["type"] != urls[j].attrs["type"]
  {
    Stage2Urls(cfg);
    var urls := Tagged(Stage2Metainfo(cfg).value.children, "url");
    forall i, j | 0 <= i < j < |urls|
      ensures "type" in urls[i].attrs && "type" in urls[j].attrs && urls[i].attrs["type"] != urls[j].attrs["type"]
    {
      assert i == 0 && j == 1;
      assert urls[0].attrs == map["type" := "homepage"];
      assert urls[1].attrs == map["type" := "vcs-browser"];
    }
  }
}
