/** The buildroot scanner of src/terra_appstream_helper/__init__.py:
    `append_provides_element`, the per-file decision list and the walk of
    `scan_installed_files`, and the `<release>` it inserts first. The walk
    is given as a sequence of file records in visit order. */
module Scanner {
  import opened Wrappers
  import opened PyStrings
  import opened Tree

  /** One file reported by the directory walk: its directory (prefixed by
      the buildroot), its name, and whether it is executable for the caller. */
  datatype FileRecord = FileRecord(dirpath: string, filename: string, executable: bool) {
    /** `os.path.join(dirpath, filename)`, the string the directory rules search. */
    function Path(): string {
      JoinPath(dirpath, filename)
    }
  }

  /** What one file contributes to the document. */
  datatype Capability =
    | Library(name: string)
    | Binary(name: string)
    | DesktopId(name: string)
    | Service(name: string)

  /** The four classification rules, in the order the scan tries them. */
  datatype Rule = LibraryRule | BinaryRule | DesktopRule | ServiceRule

  function Rank(k: Rule): nat {
    match k
    case LibraryRule => 0
    case BinaryRule => 1
    case DesktopRule => 2
    case ServiceRule => 3
  }

  function RuleOf(c: Capability): Rule {
    match c
    case Library(_) => LibraryRule
    case Binary(_) => BinaryRule
    case DesktopId(_) => DesktopRule
    case Service(_) => ServiceRule
  }

  /** A shared-library name: ends in `.so` or carries a `.so.` version marker. */
  predicate IsLibraryName(name: string) {
    EndsWith(name, ".so") || Contains(name, ".so.")
  }

  /** Whether rule `k`, taken on its own, matches file `f`. */
  predicate Applies(k: Rule, f: FileRecord) {
    match k
    case LibraryRule => IsLibraryName(f.filename)
    case BinaryRule => f.executable
    case DesktopRule => Contains(f.Path(), "usr/share/applications") && EndsWith(f.filename, ".desktop")
    case ServiceRule => Contains(f.Path(), "usr/lib/systemd/system") && EndsWith(f.filename, ".service")
  }

  /** The `if`/`elif` chain of the scan loop. The contract states it as a
      first-match decision list: a capability is produced exactly when some
      rule applies, it comes from a rule that applies with no earlier rule
      applying, and its value is always the bare file name. */
  function Classify(f: FileRecord): (r: Option<Capability>)
    ensures r.Some? <==> exists k :: Applies(k, f)
    ensures r.Some? ==> r.value.name == f.filename
    ensures r.Some? ==> Applies(RuleOf(r.value), f)
    ensures r.Some? ==> forall k :: Rank(k) < Rank(RuleOf(r.value)) ==> !Applies(k, f)
  {
    var name := f.filename;
    var path := f.Path();
    if EndsWith(name, ".so") || Contains(name, ".so.") then
      assert Applies(LibraryRule, f);
      EarlierRulesFail(f, LibraryRule);
      Some(Library(name))
    else if f.executable then
      assert Applies(BinaryRule, f);
      EarlierRulesFail(f, BinaryRule);
      Some(Binary(name))
    else if Contains(path, "usr/share/applications") && EndsWith(name, ".desktop") then
      assert Applies(DesktopRule, f);
      EarlierRulesFail(f, DesktopRule);
      Some(DesktopId(name))
    else if Contains(path, "usr/lib/systemd/system") && EndsWith(name, ".service") then
      assert Applies(ServiceRule, f);
      EarlierRulesFail(f, ServiceRule);
      Some(Service(name))
    else
      NoRuleApplies(f);
      None
  }

  /** The rules ranked before `k` fail on `f` when each one is seen to fail. */
  lemma EarlierRulesFail(f: FileRecord, k: Rule)
    requires Rank(k) > 0 ==> !Applies(LibraryRule, f)
    requires Rank(k) > 1 ==> !Applies(BinaryRule, f)
    requires Rank(k) > 2 ==> !Applies(DesktopRule, f)
    ensures forall j :: Rank(j) < Rank(k) ==> !Applies(j, f)
  {
    forall j | Rank(j) < Rank(k) ensures !Applies(j, f) {
      match j
      case LibraryRule =>
      case BinaryRule =>
      case DesktopRule =>
      case ServiceRule =>
    }
  }

  /** When each of the four rules fails on `f`, no rule applies to it. */
  lemma NoRuleApplies(f: FileRecord)
    requires !Applies(LibraryRule, f) && !Applies(BinaryRule, f)
    requires !Applies(DesktopRule, f) && !Applies(ServiceRule, f)
    ensures forall k :: !Applies(k, f)
  {
    forall k ensures !Applies(k, f) {
      match k
      case LibraryRule =>
      case BinaryRule =>
      case DesktopRule =>
      case ServiceRule =>
    }
  }

  /** The element a capability becomes. Libraries and binaries go through
      `append_provides_element`; launchables are built by hand with a
      `type` attribute. All of them end up under `<provides>`. */
  function CapabilityElement(c: Capability): Element {
    match c
    case Library(n) => TextElement("library", n)
    case Binary(n) => TextElement("binary", n)
    case DesktopId(n) => Element("launchable", map["type" := "desktop-id"], Some(n), [])
    case Service(n) => Element("launchable", map["type" := "service"], Some(n), [])
  }

  /** `append_provides_element`: a new `<element_type>` with the given text
      as the last entry of the first `<provides>`, created if missing. */
  function AppendProvidesElement(root: Element, elementType: string, value: string): (r: Element)
    ensures Under(r, "provides") == Under(root, "provides") + [TextElement(elementType, value)]
    ensures Without(r, "provides") == Without(root, "provides")
    ensures r.tag == root.tag && r.attrs == root.attrs && r.text == root.text
    ensures AppendedUnder(root, r, "provides", [TextElement(elementType, value)])
  {
    AppendElement(root, "provides", TextElement(elementType, value))
  }

  /** The entry one file contributes: none, or the element of its capability. */
  function EntryOf(f: FileRecord): seq<Element> {
    match Classify(f)
    case None => []
    case Some(c) => [CapabilityElement(c)]
  }

  /** The entries a file list contributes under `<provides>`, in walk
      order, one per classified file. This is the reference the scan is
      measured against. */
  function Entries(files: seq<FileRecord>): (r: seq<Element>)
    ensures |r| <= |files|
  {
    if |files| == 0 then []
    else EntryOf(files[0]) + Entries(files[1..])
  }

  /** The append performed for a classified file: libraries and binaries
      through `append_provides_element`, launchables through `append_element`
      with `"provides"` as the parent. */
  function AppendCapability(root: Element, c: Capability): (r: Element)
    ensures Under(r, "provides") == Under(root, "provides") + [CapabilityElement(c)]
    ensures Without(r, "provides") == Without(root, "provides")
    ensures r.tag == root.tag && r.attrs == root.attrs && r.text == root.text
    ensures AppendedUnder(root, r, "provides", [CapabilityElement(c)])
  {
    match c
    case Library(n) => AppendProvidesElement(root, "library", n)
    case Binary(n) => AppendProvidesElement(root, "binary", n)
    case DesktopId(n) => AppendElement(root, "provides", Element("launchable", map["type" := "desktop-id"], Some(n), []))
    case Service(n) => AppendElement(root, "provides", Element("launchable", map["type" := "service"], Some(n), []))
  }

  /** One iteration of the scan loop: at most one element is appended, under
      `<provides>`, and a file no rule matches leaves the document as it was. */
  function ScanFile(root: Element, f: FileRecord): (r: Element)
    ensures Under(r, "provides") == Under(root, "provides") + EntryOf(f)
    ensures Without(r, "provides") == Without(root, "provides")
    ensures r.tag == root.tag && r.attrs == root.attrs && r.text == root.text
    ensures EntryOf(f) == [] ==> r == root
    ensures AppendedUnder(root, r, "provides", EntryOf(f))
  {
    match Classify(f)
    case None =>
      AppendedNothing(root, "provides");
      root
    case Some(c) => AppendCapability(root, c)
  }

  /** The scan loop as a fold over the walk, one `ScanFile` step per file
      in walk order. */
  function ScanFiles(root: Element, files: seq<FileRecord>): (r: Element)
    ensures r.tag == root.tag && r.attrs == root.attrs && r.text == root.text
    ensures AppendedUnder(root, r, "provides", Entries(files))
    decreases |files|
  {
    if |files| == 0 then
      AppendedNothing(root, "provides");
      root
    else
      var next := ScanFile(root, files[0]);
      var r := ScanFiles(next, files[1..]);
      AppendedTrans(root, next, r, "provides", EntryOf(files[0]), Entries(files[1..]));
      r
  }

  /** After the scan the `<provides>` entries are those before it followed
      by `Entries(files)`: nothing already there is dropped or reordered and
      nothing is de-duplicated. */
  lemma ScanFilesProvides(root: Element, files: seq<FileRecord>)
    ensures Under(ScanFiles(root, files), "provides") == Under(root, "provides") + Entries(files)
  {
    AppendedViews(root, ScanFiles(root, files), "provides", Entries(files));
  }

  /** The scan touches nothing outside the first `<provides>` element. */
  lemma ScanFilesKeepsOthers(root: Element, files: seq<FileRecord>)
    ensures Without(ScanFiles(root, files), "provides") == Without(root, "provides")
  {
    AppendedViews(root, ScanFiles(root, files), "provides", Entries(files));
  }

  /** A walk in which no file matches a rule leaves the document unchanged;
      in particular no empty `<provides>` is created. */
  lemma {:induction false} ScanFilesNoMatch(root: Element, files: seq<FileRecord>)
    requires Entries(files) == []
    ensures ScanFiles(root, files) == root
    decreases |files|
  {
    if |files| > 0 {
      assert EntryOf(files[0]) + Entries(files[1..]) == [];
      assert |EntryOf(files[0])| == 0;
      ScanFilesNoMatch(ScanFile(root, files[0]), files[1..]);
    }
  }

  lemma {:induction false} ScanFilesConcat(root: Element, a: seq<FileRecord>, b: seq<FileRecord>)
    ensures ScanFiles(root, a + b) == ScanFiles(ScanFiles(root, a), b)
    decreases |a|
  {
    if |a| == 0 {
      assert a + b == b;
    } else {
      assert (a + b)[0] == a[0];
      assert (a + b)[1..] == a[1..] + b;
      ScanFilesConcat(ScanFile(root, a[0]), a[1..], b);
    }
  }

  lemma {:induction false} EntriesConcat(a: seq<FileRecord>, b: seq<FileRecord>)
    ensures Entries(a + b) == Entries(a) + Entries(b)
    decreases |a|
  {
    if |a| == 0 {
      assert a + b == b;
    } else {
      assert (a + b)[0] == a[0];
      assert (a + b)[1..] == a[1..] + b;
      EntriesConcat(a[1..], b);
    }
  }

  /** Each entry carries the name of some walked file: the scan invents no
      values. */
  lemma {:induction false} EntriesNameFiles(files: seq<FileRecord>)
    ensures forall e :: e in Entries(files) ==> exists f :: f in files && e.text == Some(f.filename)
    decreases |files|
  {
    if |files| > 0 {
      var rest := files[1..];
      EntriesNameFiles(rest);
      EntryNamesFile(files[0]);
      assert Entries(files) == EntryOf(files[0]) + Entries(rest);
      forall e | e in Entries(files)
        ensures exists f :: f in files && e.text == Some(f.filename)
      {
        if e in EntryOf(files[0]) {
          assert files[0] in files;
        } else {
          var g :| g in rest && e.text == Some(g.filename);
          assert g in files;
        }
      }
    }
  }

  /** The entry of one file, if any, carries that file's name. */
  lemma EntryNamesFile(f: FileRecord)
    ensures forall e :: e in EntryOf(f) ==> e.text == Some(f.filename)
  {
  }

  // ---------------------------------------------------------------------
  // Releases

  /** The fallback `os.getenv("RPM_PACKAGE_VERSION", "unknown")` uses when
      the variable is unset. A set but empty variable stays empty. */
  function PackageVersion(env: Option<string>): string {
    env.GetOr("unknown")
  }

  /** `<release version="v"/>`. */
  function ReleaseElement(v: string): Element {
    Element("release", map["version" := v], None, [])
  }

  /** A `release` element whose `version` attribute is `v`. */
  predicate IsReleaseFor(e: Element, v: string) {
    e.tag == "release" && "version" in e.attrs && e.attrs["version"] == v
  }

  /** A `releases` element holding a release for `v`. */
  predicate ReleasesHolds(c: Element, v: string) {
    c.tag == "releases" && exists j :: 0 <= j < |c.children| && IsReleaseFor(c.children[j], v)
  }

  /** The query `./releases/release[@version='v']` is not `None`: some
      `releases` child of the root, not only the first, holds a match. */
  predicate FindRelease(root: Element, v: string) {
    exists i :: 0 <= i < |root.children| && ReleasesHolds(root.children[i], v)
  }

  /** Number of releases for `v` among `s`. */
  function MatchCount(s: seq<Element>, v: string): nat {
    if |s| == 0 then 0
    else MatchCount(s[..|s| - 1], v) + (if IsReleaseFor(s[|s| - 1], v) then 1 else 0)
  }

  /** Releases for `v` that a child of the root holds. */
  function Contribution(c: Element, v: string): nat {
    if c.tag == "releases" then MatchCount(c.children, v) else 0
  }

  /** Number of releases for `v` in the document, over every `releases`
      child of the root. */
  function ReleaseCount(cs: seq<Element>, v: string): nat {
    if |cs| == 0 then 0
    else ReleaseCount(cs[..|cs| - 1], v) + Contribution(cs[|cs| - 1], v)
  }

  lemma {:induction false} MatchCountPositive(s: seq<Element>, v: string)
    ensures MatchCount(s, v) > 0 <==> exists j :: 0 <= j < |s| && IsReleaseFor(s[j], v)
  {
    if |s| > 0 {
      var init := s[..|s| - 1];
      MatchCountPositive(init, v);
      if j :| 0 <= j < |init| && IsReleaseFor(init[j], v) {
        assert IsReleaseFor(s[j], v);
      }
      if j :| 0 <= j < |s| && IsReleaseFor(s[j], v) {
        if j < |init| {
          assert IsReleaseFor(init[j], v);
        }
      }
    }
  }

  lemma {:induction false} ReleaseCountPositive(cs: seq<Element>, v: string)
    ensures ReleaseCount(cs, v) > 0 <==> exists i :: 0 <= i < |cs| && ReleasesHolds(cs[i], v)
  {
    if |cs| > 0 {
      var init := cs[..|cs| - 1];
      var last := cs[|cs| - 1];
      ReleaseCountPositive(init, v);
      MatchCountPositive(last.children, v);
      if i :| 0 <= i < |init| && ReleasesHolds(init[i], v) {
        assert ReleasesHolds(cs[i], v);
      }
      if i :| 0 <= i < |cs| && ReleasesHolds(cs[i], v) {
        if i < |init| {
          assert ReleasesHolds(init[i], v);
        }
      }
    }
  }

  /** The release query succeeds exactly when the document counts at least
      one release for `v`. */
  lemma FindReleaseIffCounted(root: Element, v: string)
    ensures FindRelease(root, v) <==> ReleaseCount(root.children, v) > 0
  {
    ReleaseCountPositive(root.children, v);
  }

  lemma {:induction false} ReleaseCountConcat(a: seq<Element>, b: seq<Element>, v: string)
    ensures ReleaseCount(a + b, v) == ReleaseCount(a, v) + ReleaseCount(b, v)
    decreases |b|
  {
    if |b| == 0 {
      assert a + b == a;
    } else {
      assert (a + b)[..|a + b| - 1] == a + b[..|b| - 1];
      ReleaseCountConcat(a, b[..|b| - 1], v);
    }
  }

  /** The count splits around the child at position `i`. */
  lemma ReleaseCountAround(cs: seq<Element>, i: nat, v: string)
    requires i < |cs|
    ensures ReleaseCount(cs, v) == ReleaseCount(cs[..i] + cs[i + 1..], v) + Contribution(cs[i], v)
  {
    assert cs == cs[..i] + [cs[i]] + cs[i + 1..];
    ReleaseCountConcat(cs[..i] + [cs[i]], cs[i + 1..], v);
    ReleaseCountConcat(cs[..i], [cs[i]], v);
    ReleaseCountConcat(cs[..i], cs[i + 1..], v);
    assert [cs[i]][..0] == [];
  }

  /** Removing the first `name` child, when that is not `releases`, loses no
      release: the count can be read off `Without`. */
  lemma ReleaseCountWithout(e: Element, name: string, v: string)
    requires name != "releases"
    ensures ReleaseCount(e.children, v) == ReleaseCount(Without(e, name), v)
  {
    match FindIndex(e.children, name)
    case None =>
    case Some(i) => ReleaseCountAround(e.children, i, v);
  }

  /** The scan leaves the release count of every version as it was. */
  lemma ScanFilesKeepsReleases(root: Element, files: seq<FileRecord>, v: string)
    ensures ReleaseCount(ScanFiles(root, files).children, v) == ReleaseCount(root.children, v)
  {
    ScanFilesKeepsOthers(root, files);
    ReleaseCountWithout(root, "provides", v);
    ReleaseCountWithout(ScanFiles(root, files), "provides", v);
  }

  /** The release insertion of `scan_installed_files`: when the query for
      `v` finds nothing, a `<release version="v"/>` is appended under the
      first `<releases>` (created if missing); otherwise the document is left
      alone. Either way exactly the releases for `v` that existed remain,
      or exactly one when there were none. */
  function EnsureRelease(root: Element, v: string): (r: Element)
    ensures FindRelease(r, v)
    ensures ReleaseCount(r.children, v) == if FindRelease(root, v) then ReleaseCount(root.children, v) else 1
    ensures FindRelease(root, v) ==> r == root
    ensures Under(r, "provides") == Under(root, "provides")
    ensures r.tag == root.tag && r.attrs == root.attrs && r.text == root.text
    ensures Without(r, "releases") == Without(root, "releases")
    ensures Under(r, "releases") == Under(root, "releases") + (if FindRelease(root, v) then [] else [ReleaseElement(v)])
    ensures AppendedUnder(root, r, "releases", if FindRelease(root, v) then [] else [ReleaseElement(v)])
  {
    if FindRelease(root, v) then
      AppendedNothing(root, "releases");
      root
    else
      var r := AppendElement(root, "releases", ReleaseElement(v));
      AppendedReleaseCounted(root, v);
      AppendElsewhere(root, "releases", ReleaseElement(v), "provides");
      r
  }

  /** Appending `<release version="v"/>` to a document with no release for
      `v` leaves exactly one. */
  lemma AppendedReleaseCounted(root: Element, v: string)
    requires !FindRelease(root, v)
    ensures ReleaseCount(AppendElement(root, "releases", ReleaseElement(v)).children, v) == 1
    ensures FindRelease(AppendElement(root, "releases", ReleaseElement(v)), v)
  {
    var r := AppendElement(root, "releases", ReleaseElement(v));
    FindReleaseIffCounted(root, v);
    FindReleaseIffCounted(r, v);
    if FindIndex(root.children, "releases").None? {
      AppendedReleaseNewParent(root, v);
    } else {
      AppendedReleaseExistingParent(root, v);
    }
  }

  /** The case where `<releases>` is created: it holds just the new release. */
  lemma AppendedReleaseNewParent(root: Element, v: string)
    requires ReleaseCount(root.children, v) == 0
    requires FindIndex(root.children, "releases").None?
    ensures ReleaseCount(AppendElement(root, "releases", ReleaseElement(v)).children, v) == 1
  {
    var r := AppendElement(root, "releases", ReleaseElement(v));
    var i := |root.children|;
    assert FindIndex(r.children, "releases") == Some(i);
    assert r.children == root.children + [Element("releases", map[], None, [ReleaseElement(v)])];
    ReleaseCountAround(r.children, i, v);
    assert r.children[..i] + r.children[i + 1..] == root.children;
    assert MatchCount([ReleaseElement(v)], v) == 1 by {
      assert [ReleaseElement(v)][..0] == [];
    }
  }

  /** The case where the first `<releases>` exists: it gains the new
      release, and held none for `v` before. */
  lemma AppendedReleaseExistingParent(root: Element, v: string)
    requires ReleaseCount(root.children, v) == 0
    requires FindIndex(root.children, "releases").Some?
    ensures ReleaseCount(AppendElement(root, "releases", ReleaseElement(v)).children, v) == 1
  {
    var rel := ReleaseElement(v);
    var r := AppendElement(root, "releases", rel);
    var i := FindIndex(root.children, "releases").value;
    var parent := root.children[i];
    assert AppendedUnder(root, r, "releases", [rel]);
    assert r.children[i] == parent.(children := parent.children + [rel]);
    assert r.children[..i] + r.children[i + 1..] == root.children[..i] + root.children[i + 1..];
    ReleaseCountAround(root.children, i, v);
    ReleaseCountAround(r.children, i, v);
    assert MatchCount(parent.children + [rel], v) == MatchCount(parent.children, v) + 1 by {
      assert (parent.children + [rel])[..|parent.children|] == parent.children;
    }
  }

  // ---------------------------------------------------------------------
  // The whole scan

  /** Why `scan_installed_files` raises. */
  datatype ScanError = MissingDocument

  /** `scan_installed_files`: with no document it fails; otherwise it makes
      sure a release for the package version exists, then appends one
      `<provides>` entry per classified file of the walk. */
  function ScanInstalledFiles(root: Option<Element>, versionEnv: Option<string>, files: seq<FileRecord>): (r: Result<Element, ScanError>)
    ensures r.Failure? <==> root.None?
    ensures r.Success? ==> FindRelease(r.value, PackageVersion(versionEnv))
    ensures r.Success? ==>
      var v := PackageVersion(versionEnv);
      ReleaseCount(r.value.children, v) == if FindRelease(root.value, v) then ReleaseCount(root.value.children, v) else 1
    ensures r.Success? ==> Under(r.value, "provides") == Under(root.value, "provides") + Entries(files)
    ensures r.Success? ==>
      var v := PackageVersion(versionEnv);
      Under(r.value, "releases") == Under(root.value, "releases") + (if FindRelease(root.value, v) then [] else [ReleaseElement(v)])
    ensures r.Success? ==> r.value.tag == root.value.tag && r.value.attrs == root.value.attrs && r.value.text == root.value.text
    ensures r.Success? ==>
      forall t :: t != "releases" && t != "provides" ==> Tagged(r.value.children, t) == Tagged(root.value.children, t)
    ensures r.Success? ==>
      var v := PackageVersion(versionEnv);
      exists mid :: AppendedUnder(root.value, mid, "releases", if FindRelease(root.value, v) then [] else [ReleaseElement(v)])
                 && AppendedUnder(mid, r.value, "provides", Entries(files))
  {
    match root
    case None => Failure(MissingDocument)
    case Some(doc) =>
      var v := PackageVersion(versionEnv);
      var withRelease := EnsureRelease(doc, v);
      var scanned := ScanFiles(withRelease, files);
      ScanFilesKeepsReleases(withRelease, files, v);
      FindReleaseIffCounted(withRelease, v);
      FindReleaseIffCounted(scanned, v);
      ScanFilesProvides(withRelease, files);
      ScanFilesKeepsUnder(withRelease, files, "releases");
      ScanKeepsOtherTags(doc, v, files);
      Success(scanned)
  }

  /** Every child of the document other than the first `<releases>` and the
      first `<provides>` keeps its position and is unchanged; so a second
      `<releases>` or `<provides>` survives as it was. */
  lemma ScanInstalledKeepsChild(doc: Element, versionEnv: Option<string>, files: seq<FileRecord>, j: nat)
    requires j < |doc.children|
    requires FindIndex(doc.children, "releases") != Some(j) && FindIndex(doc.children, "provides") != Some(j)
    ensures
      var r := ScanInstalledFiles(Some(doc), versionEnv, files).value;
      j < |r.children| && r.children[j] == doc.children[j]
  {
    var v := PackageVersion(versionEnv);
    var mid := EnsureRelease(doc, v);
    var r := ScanFiles(mid, files);
    assert ScanInstalledFiles(Some(doc), versionEnv, files).value == r;
    assert j < |mid.children| && mid.children[j] == doc.children[j];
    AppendedElsewhere(doc, mid, "releases", if FindRelease(doc, v) then [] else [ReleaseElement(v)], "provides");
    assert j < |r.children| && r.children[j] == mid.children[j];
  }

  /** One scan step leaves the first child of every tag but `provides`, and
      its children, where they were. */
  lemma ScanFileKeepsUnder(root: Element, f: FileRecord, other: string)
    requires other != "provides"
    ensures Under(ScanFile(root, f), other) == Under(root, other)
  {
    match Classify(f)
    case None =>
    case Some(c) =>
      assert ScanFile(root, f) == AppendCapability(root, c);
      AppendCapabilityAppends(root, c);
      AppendElsewhere(root, "provides", CapabilityElement(c), other);
  }

  /** Every capability append, whichever helper the source uses for it, is
      `append_element` under `provides`. */
  lemma AppendCapabilityAppends(root: Element, c: Capability)
    ensures AppendCapability(root, c) == AppendElement(root, "provides", CapabilityElement(c))
  {
  }

  /** The whole walk likewise. */
  lemma {:induction false} ScanFilesKeepsUnder(root: Element, files: seq<FileRecord>, other: string)
    requires other != "provides"
    ensures Under(ScanFiles(root, files), other) == Under(root, other)
    ensures FindIndex(ScanFiles(root, files).children, other) == FindIndex(root.children, other)
    ensures FindIndex(root.children, other).Some? ==>
      ScanFiles(root, files).children[FindIndex(root.children, other).value] == root.children[FindIndex(root.children, other).value]
    decreases |files|
  {
    AppendedElsewhere(root, ScanFiles(root, files), "provides", Entries(files), other);
    if |files| > 0 {
      ScanFileKeepsUnder(root, files[0], other);
      ScanFilesKeepsUnder(ScanFile(root, files[0]), files[1..], other);
    }
  }

  /** The release insertion followed by the walk keeps every child whose tag
      is neither `releases` nor `provides`, in order. */
  lemma ScanKeepsOtherTags(doc: Element, v: string, files: seq<FileRecord>)
    ensures
      var r := ScanFiles(EnsureRelease(doc, v), files);
      forall t :: t != "releases" && t != "provides" ==> Tagged(r.children, t) == Tagged(doc.children, t)
  {
    var w := EnsureRelease(doc, v);
    var r := ScanFiles(w, files);
    ScanFilesKeepsOthers(w, files);
    forall t | t != "releases" && t != "provides"
      ensures Tagged(r.children, t) == Tagged(doc.children, t)
    {
      TaggedWithout(r, "provides", t);
      TaggedWithout(w, "provides", t);
      TaggedWithout(w, "releases", t);
      TaggedWithout(doc, "releases", t);
    }
  }

  /** Scanning a document a second time with the same version and walk keeps
      the release count, but repeats every `<provides>` entry: the scan does
      not de-duplicate. */
  lemma RescanDuplicatesProvides(doc: Element, versionEnv: Option<string>, files: seq<FileRecord>)
    ensures
      var once := ScanInstalledFiles(Some(doc), versionEnv, files).value;
      var twice := ScanInstalledFiles(Some(once), versionEnv, files).value;
      var v := PackageVersion(versionEnv);
      && ReleaseCount(twice.children, v) == ReleaseCount(once.children, v)
      && Under(twice, "provides") == Under(doc, "provides") + Entries(files) + Entries(files)
  {
  }

  // ---------------------------------------------------------------------
  // Consequences of the rule order

  /** A shared-library name yields a library entry whatever the directory
      and the executable bit. */
  lemma LibraryAnywhere(dirpath: string, filename: string, executable: bool)
    requires IsLibraryName(filename)
    ensures Classify(FileRecord(dirpath, filename, executable)) == Some(Library(filename))
  {
    var f := FileRecord(dirpath, filename, executable);
    assert Applies(LibraryRule, f);
  }

  /** An executable that is not a library is a binary wherever it lies, so
      an executable `.desktop` or `.service` file never becomes a launchable. */
  lemma ExecutableIsBinary(dirpath: string, filename: string)
    requires !IsLibraryName(filename)
    ensures Classify(FileRecord(dirpath, filename, true)) == Some(Binary(filename))
  {
    var f := FileRecord(dirpath, filename, true);
    assert Applies(BinaryRule, f);
    assert !Applies(LibraryRule, f);
  }

  /** A non-executable `.desktop` file whose name is not a library name, in a
      directory whose path mentions `usr/share/applications`, is a desktop-id
      launchable. */
  lemma DesktopEntryIsLaunchable(dirpath: string, filename: string)
    requires Contains(dirpath, "usr/share/applications")
    requires !StartsWith(filename, "/")
    requires EndsWith(filename, ".desktop") && !IsLibraryName(filename)
    ensures Classify(FileRecord(dirpath, filename, false)) == Some(DesktopId(filename))
  {
    var f := FileRecord(dirpath, filename, false);
    ContainsExtends(dirpath, f.Path(), "usr/share/applications");
    assert Applies(DesktopRule, f);
    assert !Applies(LibraryRule, f) && !Applies(BinaryRule, f);
  }

  /** A non-executable `.service` file whose name is not a library name, in a
      directory whose path mentions `usr/lib/systemd/system`, is a service
      launchable. */
  lemma ServiceUnitIsLaunchable(dirpath: string, filename: string)
    requires Contains(dirpath, "usr/lib/systemd/system")
    requires !StartsWith(filename, "/")
    requires EndsWith(filename, ".service") && !IsLibraryName(filename)
    ensures Classify(FileRecord(dirpath, filename, false)) == Some(Service(filename))
  {
    var f := FileRecord(dirpath, filename, false);
    ContainsExtends(dirpath, f.Path(), "usr/lib/systemd/system");
    assert Applies(ServiceRule, f);
    assert !Applies(LibraryRule, f) && !Applies(BinaryRule, f);
    assert !EndsWith(filename, ".desktop") by {
      assert filename[|filename| - 1] == 'e';
    }
    assert !Applies(DesktopRule, f);
  }

  /** The directory rules search the joined path as a string, not its
      directory part, so a non-executable `applications*.desktop` file that is
      not a library name, lying directly in a `usr/share` directory also becomes a desktop-id
      launchable. */
  lemma ApplicationsPrefixMatches(dirpath: string, filename: string)
    requires EndsWith(dirpath, "usr/share")
    requires StartsWith(filename, "applications")
    requires EndsWith(filename, ".desktop") && !IsLibraryName(filename)
    ensures Classify(FileRecord(dirpath, filename, false)) == Some(DesktopId(filename))
  {
    var f := FileRecord(dirpath, filename, false);
    ApplicationsAcrossSeparator(dirpath, filename);
    assert Applies(DesktopRule, f);
    assert !Applies(LibraryRule, f) && !Applies(BinaryRule, f);
  }

  /** `.../usr/share` joined with `applications...` spells out
      `usr/share/applications` across the separator. */
  lemma ApplicationsAcrossSeparator(dirpath: string, filename: string)
    requires EndsWith(dirpath, "usr/share")
    requires StartsWith(filename, "applications")
    ensures Contains(JoinPath(dirpath, filename), "usr/share/applications")
  {
    var p := JoinPath(dirpath, filename);
    assert filename[0] == filename[..12][0] == 'a';
    assert dirpath[|dirpath| - 1] == dirpath[|dirpath| - 9..][8] == 'e';
    assert p == dirpath + "/" + filename;
    var k := |dirpath| - 9;
    assert p[k..k + 22] == dirpath[k..] + "/" + filename[..12];
    assert dirpath[k..] == "usr/share" && filename[..12] == "applications";
    ApplicationsDirSpelled();
    assert OccursAt(p, "usr/share/applications", k);
  }

  lemma ApplicationsDirSpelled()
    ensures "usr/share" + "/" + "applications" == "usr/share/applications"
  {
    var a := "usr/share" + "/" + "applications";
    var b := "usr/share/applications";
    assert |a| == |b|;
    forall i | 0 <= i < |a| ensures a[i] == b[i] {
      if i < 9 {
        assert a[i] == "usr/share"[i];
      } else if i > 9 {
        assert a[i] == "applications"[i - 10];
      }
    }
  }

  /** The same classified file walked twice gives two identical entries. */
  lemma SameFileTwice(f: FileRecord)
    requires Classify(f).Some?
    ensures Entries([f, f]) == [CapabilityElement(Classify(f).value)] + [CapabilityElement(Classify(f).value)]
  {
    assert [f, f][1..] == [f];
    assert [f][1..] == [];
  }
}
