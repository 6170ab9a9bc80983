# appstream-helper, modelled in Dafny

This project models the core of terra's `appstream-helper`. The tool builds the AppStream
metainfo document of an RPM package while the package is being built. It works in
these stages:

- It picks a base `<component>` document: an override, else the package's own metainfo, else an empty one.
- It merges in a baseline synthesized from `APPSTREAM_*` and `RPM_*` environment variables.
- It makes sure a `<release>` exists for the package version.
- It walks the buildroot. Each installed file that looks like a shared library, an
  executable, a desktop entry or a systemd service unit adds one entry under `<provides>`.

Modules, one per concern:

- `Wrappers`: `Option` and `Result`.
- `PyStrings`: the Python string operations the code relies on. `sub in s` is
  `Contains`. `endswith` and `startswith` are `EndsWith` and `StartsWith`.
  `os.path.join` is `JoinPath`.
- `Tree`: an ElementTree element as an immutable value: tag, attributes, optional text
  and children. It also models `find` by tag (`FindIndex`) and `append_element`
  (`AppendElement`). `Tagged`, the children carrying a tag, is the view through which the
  lemmas observe documents; the code itself never asks for it. `Under(e, name)` is the children of the first
  `name` child. `Without(e, name)` is every other child of `e`.
  `AppendedUnder(before, after, name, added)` says, index by index, that `after` is
  `before` with `added` appended under its first `name` child.
- `Scanner`: `append_provides_element`, the file classifier as a first-match decision
  list (`Classify`), the walk as a fold (`ScanFiles`), the release insertion
  (`EnsureRelease`) and `scan_installed_files` (`ScanInstalledFiles`).
- `Synthesis`: the configuration (every environment variable is an `Option<string>`;
  `Truthy` is Python truthiness) and the children both `stage2_metainfo` variants share.
- `Metainfo`: `stage2_metainfo` of `__init__.py`, and the stage order of `main`
  (`SelectBase`, `Pipeline`).
- `Util`: `get_icon_from_type` and the richer `stage2_metainfo` of `util.py`.

Each synthesized document is the concatenation of small "pieces", each holding at most
one element. The lemmas read the document's children by tag (`Tagged`), so they say what
a consumer looking up `<name>`, `<url>` and so on will find.

Behaviours of the code worth knowing, each modelled as written:

- A library needs no library directory, and a binary needs no `usr/bin`. The library and
  executable rules look only at the file name and the executable bit.
- No rule recognises `.dll` or `.lib` files.
- Launchables are appended under `<provides>`; there is no separate `<launchables>` element.
- Launchables are not de-duplicated. Scanning the same walk twice repeats every entry,
  launchables included (`Scanner.RescanDuplicatesProvides`, `Scanner.SameFileTwice`).
- The directory rules test a substring of the joined path, not a directory prefix
  (`Scanner.ApplicationsPrefixMatches`).
- The only channel handling is the `-nightly` / `-git` suffix on `<id>`
  (`Synthesis.ChannelId`); the `<name>` is never suffixed.
- The release query `./releases/release[@version='v']` looks in every `<releases>` child.
  A missing release is appended to the first one, or to a new one.

## Model

| member | source | states |
|---|---|---|
| Tree.FindIndex | src/terra_appstream_helper/__init__.py:67 | `find` by tag gives the first index whose child carries the tag, and nothing exactly when no child does |
| Tree.AppendElement | src/terra_appstream_helper/__init__.py:63-70 | the subelement becomes the last child of the first `name` child; when there is none, that parent is created as the root's new last child; no other child changes, and the root's own tag, attributes and text are kept |
| Tree.AppendedTrans | src/terra_appstream_helper/__init__.py:63-70 | appending one list and then another under the same parent name is appending their concatenation |
| Tree.AppendedViews | src/terra_appstream_helper/__init__.py:63-70 | after appending under a parent name, the first such child holds its old children followed by the new ones, and the other children are unchanged |
| Tree.AppendElsewhere | src/terra_appstream_helper/__init__.py:63-70 | appending under one parent name leaves the first child of every other name at its index, and that child, with its attributes, text and children, as it was |
| Scanner.AppendProvidesElement | src/terra_appstream_helper/__init__.py:73-79 | a text element of the given type and value is appended as the last child of the first `<provides>`, which keeps its index, attributes and text; with no `<provides>`, one holding just that element becomes the new last child; every other child keeps its index and value |
| Scanner.Classify | src/terra_appstream_helper/__init__.py:101-114 | a file gets a capability exactly when some rule applies; the chosen rule applies, and no rule earlier in the library, binary, desktop, service order does; the value is the bare file name |
| Scanner.ScanFile | src/terra_appstream_helper/__init__.py:99-114 | one file adds its entry, if any, at the end of `<provides>`; an unclassified file leaves the document unchanged |
| Scanner.ScanFilesProvides | src/terra_appstream_helper/__init__.py:97-114 | after the walk, `<provides>` holds its earlier entries followed by one entry per classified file in walk order; nothing is dropped, reordered or de-duplicated |
| Scanner.ScanFiles | src/terra_appstream_helper/__init__.py:97-114 | the walk appends exactly the classified entries, in walk order, under the first `<provides>`, which is created as the last child only when some file is classified; every other child keeps its index and value, and the root its tag, attributes and text |
| Scanner.ScanFilesKeepsOthers | src/terra_appstream_helper/__init__.py:97-114 | every child other than the first `<provides>` is kept, in order |
| Scanner.ScanFilesNoMatch | src/terra_appstream_helper/__init__.py:97-114 | a walk in which no file is classified leaves the document unchanged, and creates no empty `<provides>` |
| Scanner.ScanFilesConcat | src/terra_appstream_helper/__init__.py:97-98 | walking two file lists one after the other is the same as walking their concatenation |
| Scanner.EntriesConcat | src/terra_appstream_helper/__init__.py:97-114 | the entries of a concatenated walk are the entries of its parts, in order |
| Scanner.EntriesNameFiles | src/terra_appstream_helper/__init__.py:101-114 | every entry's text is the name of some walked file |
| Scanner.FindReleaseIffCounted | src/terra_appstream_helper/__init__.py:89-91 | the release query for a version succeeds exactly when the document counts at least one release of that version |
| Scanner.ScanFilesKeepsReleases | src/terra_appstream_helper/__init__.py:97-114 | the walk keeps the number of releases of every version |
| Scanner.EnsureRelease | src/terra_appstream_helper/__init__.py:87-95 | afterwards a release for the version exists; an existing one means the document is left alone, otherwise there is exactly one, appended as the last entry of the first `<releases>`, which keeps its index, attributes and text, or held by a new `<releases>` added as the last child; every other child keeps its index and value, `<provides>` included, and the root's tag, attributes and text are kept |
| Scanner.ScanInstalledFiles | src/terra_appstream_helper/__init__.py:82-114 | it fails exactly when there is no document; otherwise a release of the package version (`unknown` when unset) exists, the release count is kept or becomes one, the first `<releases>` gains at most that one release, `<provides>` gains exactly the walk's entries, and every child with any other tag, and the root's tag, attributes and text, are kept; the result is the document with the release appended under the first `<releases>` and then the entries under the first `<provides>` |
| Scanner.ScanInstalledKeepsChild | src/terra_appstream_helper/__init__.py:82-114 | every child other than the first `<releases>` and the first `<provides>` (a second one of either included) is at the same index afterwards |
| Scanner.ScanFilesKeepsUnder | src/terra_appstream_helper/__init__.py:97-114 | the walk leaves the index of the first child of every tag but `provides` unchanged, and that child itself, children included |
| Scanner.RescanDuplicatesProvides | src/terra_appstream_helper/__init__.py:82-114 | scanning twice adds no second release but repeats every `<provides>` entry, launchables included |
| Scanner.LibraryAnywhere | src/terra_appstream_helper/__init__.py:101-102 | a `.so` or `.so.` name is a library in any directory, executable or not |
| Scanner.ExecutableIsBinary | src/terra_appstream_helper/__init__.py:101-104 | an executable that is not a library is a binary anywhere; an executable desktop or service file never becomes a launchable |
| Scanner.DesktopEntryIsLaunchable | src/terra_appstream_helper/__init__.py:99-109 | a non-executable `.desktop` file whose name is not a library name, in a directory mentioning `usr/share/applications`, is a desktop-id launchable |
| Scanner.ServiceUnitIsLaunchable | src/terra_appstream_helper/__init__.py:99-114 | a non-executable `.service` file whose name is not a library name, in a directory mentioning `usr/lib/systemd/system`, is a service launchable |
| Scanner.ApplicationsPrefixMatches | src/terra_appstream_helper/__init__.py:99-109 | because the test searches the joined path, a non-executable `applications*.desktop` file whose name is not a library name, lying directly in a `usr/share` directory, is a desktop-id launchable too |
| Scanner.SameFileTwice | src/terra_appstream_helper/__init__.py:97-114 | the same classified file visited twice gives two identical entries |
| PyStrings.Contains | src/terra_appstream_helper/__init__.py:105 | `sub in s` holds exactly when `sub` occurs at some position of `s` |
| PyStrings.JoinPath | src/terra_appstream_helper/__init__.py:99 | an absolute name replaces the directory; otherwise the path is the directory and the name, with a `/` between them unless the directory is empty or already ends in one |
| Synthesis.ChannelId | src/terra_appstream_helper/__init__.py:180-187 | the id is the app id with `-nightly` appended when the package name ends in it, else with `-git` appended when it ends in that, else the app id itself; a suffix is appended even when the app id already ends in it |
| Synthesis.ChannelMarkersExclusive | src/terra_appstream_helper/__init__.py:182-185 | no package name ends with both channel markers, so the order of the two tests never matters |
| Synthesis.DescriptionFallback | src/terra_appstream_helper/__init__.py:207-216 | there is a description exactly when a description or a summary is set; it holds one paragraph, whose text is the description when set, else the summary |
| Synthesis.DeveloperIdFallback | src/terra_appstream_helper/__init__.py:218-223 | there is a developer exactly when a developer name is set; its id is the organisation when set, else the app id; the `com.example` placeholder appears only when configured as the app id or organisation |
| Metainfo.Stage2Metainfo | src/terra_appstream_helper/__init__.py:151-226 | it fails exactly when the app id is unset or empty; otherwise it gives a `<component>` with a `type` attribute exactly when a component type is set, and the metadata licence first |
| Metainfo.Stage2Identity | src/terra_appstream_helper/__init__.py:169-178 | one `CC0-1.0` metadata licence; a `<name>` only when a pretty name is set |
| Metainfo.Stage2Id | src/terra_appstream_helper/__init__.py:180-190 | exactly one `<id>`, carrying the channel id |
| Metainfo.Stage2Descriptive | src/terra_appstream_helper/__init__.py:192-223 | licence, homepage and summary appear only when set, plus the description and developer fallbacks |
| Metainfo.Stage2Singletons | src/terra_appstream_helper/__init__.py:151-226 | no tag occurs twice among the baseline's children |
| Metainfo.Pipeline | src/terra_appstream_helper/__init__.py:246-260 | the run fails exactly when the app id is missing; otherwise the result has a release for the package version and ends its `<provides>` with the walk's entries |
| Util.IconFromType | src/terra_appstream_helper/util.py:8-25 | an icon exactly for the seven mapped component types: a stock `<icon>` with non-empty text and no children |
| Util.IconTable | src/terra_appstream_helper/util.py:10-18 | the stock icon of each mapped type, and no icon for `desktop-application` or `library` |
| Util.Stage2Metainfo | src/terra_appstream_helper/util.py:28-114 | it fails exactly when the app id is unset or empty; otherwise it gives a `<component>` with a `type` attribute exactly when a component type is set, the metadata licence first and a `<name>` always second |
| Util.Stage2Identity | src/terra_appstream_helper/util.py:46-58 | one `CC0-1.0` metadata licence and exactly one `<name>`: the pretty name when set, else the package name |
| Util.Stage2Id | src/terra_appstream_helper/util.py:64-74 | exactly one `<id>`, carrying the channel id |
| Util.IconPieceByType | src/terra_appstream_helper/util.py:60-62 | with no component type the icon is the `terminal` stock icon; with one, there is an icon exactly when the table maps the type, and it is the mapped stock icon |
| Util.Stage2Icon | src/terra_appstream_helper/util.py:60-62 | the document holds at most one `<icon>`: `terminal` for an untyped component, else the table's icon for the type, when there is one |
| Util.Stage2Urls | src/terra_appstream_helper/util.py:80-89 | no URL means no `<url>`; otherwise the homepage comes first, and a second `vcs-browser` URL with the same text appears exactly for forge URLs |
| Util.Stage2UrlTypesDistinct | src/terra_appstream_helper/util.py:80-89 | two `<url>` children never share a `type` |
| Util.Stage2Descriptive | src/terra_appstream_helper/util.py:76-112 | licence and summary appear only when set, plus the description and developer fallbacks |
| Util.Stage2Singletons | src/terra_appstream_helper/util.py:28-114 | every tag except `url` occurs at most once among the children |

## Left out

- `logging.py`: messages go to a side channel, and no document content depends on them.
- The module-level `RPM_BUILD_ROOT` check and the reading of environment variables: the
  configuration and the version are parameters (`Synthesis.Config`, `versionEnv`).
- The `print` of each found file in the walk, which is output only.
- `os.walk` and `os.access` are not modelled. The walk is a sequence of `FileRecord`s in
  visit order, each carrying its executable bit.
- `load_xml_document`, `find_existing_metainfo` and `main`'s existence check of the
  override: these are filesystem I/O. Their outcome is the `override` and `existing`
  parameters of `Metainfo.Pipeline`.
- Indenting and writing the output in `main`, which is serialization.
- `merge_xml` is not part of this model. `Metainfo.Pipeline` takes it as a function parameter.
- Metainfo.Pipeline: says nothing about the merged content beyond the release and the
  scanned `<provides>` entries, because the merge is a parameter.
- Scanner.EnsureRelease: the release query compares the `version` attribute exactly. A
  version containing a `'` would break the XPath literal in the source; the model does not
  reproduce that failure.
- Scanner.ScanInstalledFiles: the same XPath quoting limitation as `Scanner.EnsureRelease`.
- The exception classes (`ValueError`, `EnvironmentError`) are the `ScanError` and
  `ConfigError` values.
- The elements the source creates before raising on a missing app id are not modelled,
  because the raise discards the document.
