/** What the two `stage2_metainfo` variants share: the configuration record
    they read (environment variables in the source, a value here), Python
    truthiness of its fields, the channel suffix of the component id, and
    the small elements both of them build. */
module Synthesis {
  import opened Wrappers
  import opened PyStrings
  import opened Tree

  /** The build-time configuration: each field is `None` when its variable
      is unset.
      appId            APPSTREAM_APPID
      license          APPSTREAM_LICENSE
      summary          APPSTREAM_SUMMARY
      description      APPSTREAM_DESCRIPTION
      url              APPSTREAM_URL
      developerName    APPSTREAM_DEVELOPER_NAME
      developerOrgName APPSTREAM_DEVELOPER_ORG_NAME
      componentType    APPSTREAM_COMPONENT_TYPE
      packageName      RPM_PACKAGE_NAME
      namePretty       APPSTREAM_NAME_PRETTY */
  datatype Config = Config(
    appId: Option<string>,
    license: Option<string>,
    summary: Option<string>,
    description: Option<string>,
    url: Option<string>,
    developerName: Option<string>,
    developerOrgName: Option<string>,
    componentType: Option<string>,
    packageName: Option<string>,
    namePretty: Option<string>)

  /** Raised when the application id is unset or empty. */
  datatype ConfigError = MissingAppId

  /** Python truthiness of an optional string: set and non-empty. */
  predicate Truthy(o: Option<string>) {
    o.Some? && o.value != ""
  }

  /** The licence of the metadata itself, fixed by both variants. */
  const MetadataLicense: string := "CC0-1.0"

  /** `f"{app_id}-nightly"` for a nightly package, `f"{app_id}-git"` for a
      git package (checked in that order), else the app id itself. */
  function ChannelId(appId: string, packageName: Option<string>): (r: string)
    ensures StartsWith(r, appId)
    ensures r[|appId|..] in {"", "-nightly", "-git"}
    ensures r[|appId|..] != "" ==> Truthy(packageName) && EndsWith(packageName.value, r[|appId|..])
    ensures Truthy(packageName) && EndsWith(packageName.value, "-nightly") ==> r == appId + "-nightly"
    ensures Truthy(packageName) && EndsWith(packageName.value, "-git") ==> r == appId + "-git"
    ensures !(Truthy(packageName) && (EndsWith(packageName.value, "-nightly") || EndsWith(packageName.value, "-git"))) ==> r == appId
  {
    if Truthy(packageName) && EndsWith(packageName.value, "-nightly") then
      ChannelMarkersExclusive(packageName.value);
      appId + "-nightly"
    else if Truthy(packageName) && EndsWith(packageName.value, "-git") then
      assert !EndsWith(packageName.value, "-nightly") by {
        assert packageName.value[|packageName.value| - 1] == 't';
      }
      appId + "-git"
    else
      appId
  }

  /** No package name ends in both channel markers, so the order in which
      they are tested never decides the outcome. */
  lemma ChannelMarkersExclusive(packageName: string)
    ensures !(EndsWith(packageName, "-nightly") && EndsWith(packageName, "-git"))
  {
    var n := |packageName|;
    assert EndsWith(packageName, "-nightly") ==> packageName[n - 1] == "-nightly"[7] == 'y';
    assert EndsWith(packageName, "-git") ==> packageName[n - 1] == "-git"[3] == 't';
  }

  /** `<description><p>text</p></description>`. */
  function Paragraph(text: string): Element {
    Element("description", map[], None, [TextElement("p", text)])
  }

  /** `<url type="...">value</url>`. */
  function Url(kind: string, value: string): Element {
    Element("url", map["type" := kind], Some(value), [])
  }

  /** The root attributes: `type` only when a component type is set. */
  function RootAttrs(cfg: Config): map<string, string> {
    if Truthy(cfg.componentType) then map["type" := cfg.componentType.value] else map[]
  }

  /** A child list of at most one element, carrying `tag`. */
  predicate PieceOf(p: seq<Element>, tag: string) {
    |p| <= 1 && forall e :: e in p ==> e.tag == tag
  }

  /** `<metadata_license>CC0-1.0</metadata_license>`, set unconditionally. */
  function LicensePiece(): (r: seq<Element>)
    ensures PieceOf(r, "metadata_license")
  {
    [TextElement("metadata_license", MetadataLicense)]
  }

  /** `<id>`, present once the app id has been checked. */
  function IdPiece(cfg: Config): (r: seq<Element>)
    requires Truthy(cfg.appId)
    ensures PieceOf(r, "id")
  {
    [TextElement("id", ChannelId(cfg.appId.value, cfg.packageName))]
  }

  /** `if value: SubElement(root, tag).text = value`, as a piece of the
      root's children. */
  function TextPiece(tag: string, value: Option<string>): (r: seq<Element>)
    ensures PieceOf(r, tag)
  {
    if Truthy(value) then [TextElement(tag, value.value)] else []
  }

  /** `<url type="homepage">` when a URL is set. */
  function HomepagePiece(cfg: Config): (r: seq<Element>)
    ensures PieceOf(r, "url")
  {
    if Truthy(cfg.url) then [Url("homepage", cfg.url.value)] else []
  }

  /** The `<description>` block both variants build: the explicit
      description, else the summary, each wrapped as one paragraph. */
  function DescriptionPiece(cfg: Config): (r: seq<Element>)
    ensures PieceOf(r, "description")
  {
    if Truthy(cfg.description) then [Paragraph(cfg.description.value)]
    else if Truthy(cfg.summary) then [Paragraph(cfg.summary.value)]
    else []
  }

  /** The `<developer id="..."/>` both variants build when a developer name
      is set: the organisation when set, else the app id, else the
      placeholder `com.example`. */
  function DeveloperPiece(cfg: Config): (r: seq<Element>)
    ensures PieceOf(r, "developer")
  {
    if Truthy(cfg.developerName) then
      var id :=
        if Truthy(cfg.developerOrgName) then cfg.developerOrgName.value
        else if Truthy(cfg.appId) then cfg.appId.value
        else "com.example";
      [Element("developer", map["id" := id], None, [])]
    else []
  }

  /** A piece contributes itself to the children tagged with its own tag
      and nothing to any other. */
  lemma TaggedOfPiece(p: seq<Element>, tag: string, t: string)
    requires PieceOf(p, tag)
    ensures Tagged(p, t) == if t == tag then p else []
  {
    TaggedPiece(p, t);
    if |p| == 1 {
      assert p[0] in p;
    }
  }

  /** Four pieces in a row: the children tagged `t` are the piece named `t`. */
  lemma FourPiecesTagged(a: seq<Element>, b: seq<Element>, c: seq<Element>, d: seq<Element>,
                         ta: string, tb: string, tc: string, td: string, t: string)
    requires PieceOf(a, ta) && PieceOf(b, tb) && PieceOf(c, tc) && PieceOf(d, td)
    ensures Tagged(a + b + c + d, t)
      == (if t == ta then a else []) + (if t == tb then b else []) + (if t == tc then c else []) + (if t == td then d else [])
  {
    TaggedConcat(a + b + c, d, t);
    TaggedConcat(a + b, c, t);
    TaggedConcat(a, b, t);
    TaggedOfPiece(a, ta, t);
    TaggedOfPiece(b, tb, t);
    TaggedOfPiece(c, tc, t);
    TaggedOfPiece(d, td, t);
  }

  /** Five pieces in a row, likewise. */
  lemma FivePiecesTagged(a: seq<Element>, b: seq<Element>, c: seq<Element>, d: seq<Element>, e: seq<Element>,
                         ta: string, tb: string, tc: string, td: string, te: string, t: string)
    requires PieceOf(a, ta) && PieceOf(b, tb) && PieceOf(c, tc) && PieceOf(d, td) && PieceOf(e, te)
    ensures Tagged(a + b + c + d + e, t)
      == (if t == ta then a else []) + (if t == tb then b else []) + (if t == tc then c else [])
       + (if t == td then d else []) + (if t == te then e else [])
  {
    TaggedConcat(a + b + c + d, e, t);
    FourPiecesTagged(a, b, c, d, ta, tb, tc, td, t);
    TaggedOfPiece(e, te, t);
  }

  /** The description fallback as a property of its text: the explicit
      description wins, the summary stands in for it, and no description
      is emitted when both are missing or empty. */
  lemma DescriptionFallback(cfg: Config)
    ensures |DescriptionPiece(cfg)| <= 1
    ensures DescriptionPiece(cfg) != [] <==> Truthy(cfg.description) || Truthy(cfg.summary)
    ensures DescriptionPiece(cfg) != [] ==>
      var p := DescriptionPiece(cfg)[0].children;
      && |p| == 1 && p[0].tag == "p"
      && p[0].text == (if Truthy(cfg.description) then cfg.description else cfg.summary)
  {
  }

  /** With an app id present, the developer id is the organisation when one
      is set and the app id otherwise. The `com.example` placeholder branch is
      therefore unreachable: that id appears only when it is configured. */
  lemma DeveloperIdFallback(cfg: Config)
    requires Truthy(cfg.appId)
    ensures DeveloperPiece(cfg) != [] <==> Truthy(cfg.developerName)
    ensures DeveloperPiece(cfg) != [] ==>
      DeveloperPiece(cfg)[0].attrs == map["id" := if Truthy(cfg.developerOrgName) then cfg.developerOrgName.value else cfg.appId.value]
  {
  }
}
