# Monkey-script test bundle framing, in Dafny

This project models the two functions of `utils/monkeyscript_helpers.py`.

- `frame_tests_in_bundle` copies a test bundle, a zip archive whose directories each hold a monkey script (`.monkey`) and the application package it drives (`.pbw`).
  - The first loop sorts the archive's entries. Scripts go into `tests`, keyed by directory, and packages into `apps`. Every other entry is copied straight to the output.
  - The second loop visits each test directory. It writes the directory's package unchanged, then the script framed by `frame_test_file`. The framing uses the application name and UUID read from the package's `appinfo.json`.
  - A test directory without a package raises `ValueError`.
  - `frame_test_file` substitutes the package's name and UUID with Python 2's `str.format`. `json.loads` returns them as unicode strings, which `str.format` encodes as ASCII. A non-ASCII name or UUID therefore raises `UnicodeEncodeError`, after the package has been written (`Unencodable`).
- `frame_test_file` indents every line of a script by four spaces. It splices the result, with the test name, the UUID and the application name, into a fixed template.

Files:

- `wrappers.dfy`: `Option`.
- `paths.dfy`: Python 2's POSIX `os.path.split` and `os.path.splitext`, as functions.
  - `split` strips trailing separators from the head unless the head is all separators.
  - A leading dot does not start an extension.
- `framing.dfy`: the script as `readlines` returns it, with line terminators kept.
  - Also the indentation, the template, and `FrameTestFile`.
  - `Unframe` reads the script back from a framed text.
- `bundle.dfy`: how an entry name is classified (`Classify`).
  - The first-pass state is specified by functions over the classified archive: `TestsOf`, `AppsOf`, `OthersOf` and `GroupOrder`.
  - The second pass is specified by `Pairs`. The whole call is specified by `Transform`.
  - `FrameTestsInBundle` is the imperative model. Its two loops are the methods `SortEntries` and `WritePairs`, with maps as their state, and each is proved against these functions.
- `bundle_properties.dfy`: what the call promises about the archive it writes.
- `scenario.dfy`: a one-directory bundle worked through end to end.

An archive is the sequence of its entries `Entry(name, data)` in archive order. Reading a package's nested `appinfo.json` is a parameter, `descriptor: string -> Option<AppInfo>`:

- `Some(AppInfo(shortName, uuid))` when the package opens and both fields are present;
- `None` for any failure, which ends the call with `BadDescriptor`, an exception propagated in the source.

The second pass is stated for any framing function `frame: Frame`. `Transform` and `FrameTestsInBundle` use `FrameTestFile`. The lemmas about the framed text itself are in `framing.dfy`, and `WrittenScript` joins the two.

Python 2 iterates a dictionary in an unspecified order. The model visits the test directories in the order their first script appears in the archive (`GroupOrder`). Two lemmas fix a group's slot by its position in that order: `TransformAt` (the `k`-th pair after the copies belongs to `GroupOrder(items)[k]`) and `PairsLayout` (the `k`-th pair belongs to `groups[k]`, which is `GroupOrder`'s entry when the second pass is given that order, as `Transform` does). The other properties in `bundle_properties.dfy` hold whatever the order, `TransformLayout` included: it says only that some pair of slots holds a group's package and framed test.

Two behaviours of the code are worth stating outright:

- The code writes entries as it goes. When it raises, the entries already written stay in the output: the copied entries, the pairs of the directories visited before the failure, and, for `Unencodable`, the failing directory's package. `Outcome` keeps them alongside the error.
- The docstring of `frame_tests_in_bundle` (`utils/monkeyscript_helpers.py` line 9) describes folders each containing a test and a PBW. The code accepts any number of either: a later script or package in the same directory replaces the earlier one, which is dropped (`TestsOfLatest`, `AppsOfLatest`, `PackagesWritten`).

## Model

| member | source | states |
|---|---|---|
| Paths.SplitPath | utils/monkeyscript_helpers.py:19 | `os.path.split`: the head is everything up to and including the last `/`, with its trailing separators stripped unless it is all separators, and the tail is the rest; characterised by `SplitPathTail`, `SplitPathHead`, `SplitPathJoin`, `SplitPathRoot`, `SplitPathNoSep` and `SplitPathDirectory` |
| Paths.RFind | utils/monkeyscript_helpers.py:19 | the index found is in range and holds the character searched for, or is -1 |
| Paths.RFindLast | utils/monkeyscript_helpers.py:19 | no occurrence of the character follows the index `RFind` reports |
| Paths.RStrip | utils/monkeyscript_helpers.py:19 | the stripped string is a prefix of the input and does not end in the stripped character |
| Paths.RStripTrailing | utils/monkeyscript_helpers.py:19 | everything stripped is the stripped character |
| Paths.SplitPathTail | utils/monkeyscript_helpers.py:19 | the file name is the longest separator-free suffix of the entry name |
| Paths.SplitPathHead | utils/monkeyscript_helpers.py:19 | the group key is a prefix of the name that ends before the separators preceding the file name, and keeps a trailing separator only if it is all separators; when everything before the file name is separators (or nothing), the group key is exactly that |
| Paths.SplitPathJoin | utils/monkeyscript_helpers.py:19 | for a `dir` that is empty or does not end in `/` and a `name` without `/`, splitting `dir/name` gives back `dir` and `name`, and a bare name gives the empty group key |
| Paths.SplitPathRoot | utils/monkeyscript_helpers.py:19 | `/name` splits into the root `/` and `name` |
| Paths.SplitPathNoSep | utils/monkeyscript_helpers.py:19 | a name without `/` has the empty group key and is its own file name |
| Paths.SplitPathDirectory | utils/monkeyscript_helpers.py:19 | a directory entry (a name ending in `/`) has an empty file name |
| Paths.SplitExt | utils/monkeyscript_helpers.py:20 | `os.path.splitext`: the extension starts at the last `.` of the last component unless only dots precede it there; characterised by `SplitExtParts` and `SplitExtJoin` |
| Paths.SplitExtParts | utils/monkeyscript_helpers.py:20 | root and extension make up the file name; a non-empty extension starts at the last `.`, holds no other `.` and no `/`, and is preceded in its component by some character other than `.` |
| Paths.SplitExtJoin | utils/monkeyscript_helpers.py:20 | for a file name `base` (no `/`) that is not all dots and an `ext` that is `.` followed by neither `.` nor `/`, splitting `base + ext` gives back `base` and `ext` |
| Bundle.Classify | utils/monkeyscript_helpers.py:19-25 | an entry is a test of its directory, named by its file name without extension, when the extension is `.monkey`, a package of its directory when it is `.pbw`, and copied otherwise; characterised by `ExtensionEndsName`, `ClassifySuffix`, `ClassifyJoin` and `ClassifyDirectory` |
| BundleProperties.ExtensionEndsName | utils/monkeyscript_helpers.py:19-20 | the extension found ends the whole entry name |
| BundleProperties.ClassifySuffix | utils/monkeyscript_helpers.py:19-25 | a test's name ends in exactly `.monkey` and a package's name in exactly `.pbw` |
| BundleProperties.ClassifyJoin | utils/monkeyscript_helpers.py:19-25 | `dir/base.monkey` is the test `base` of group `dir`; `dir/base.pbw` is the package of group `dir` |
| BundleProperties.ClassifyDirectory | utils/monkeyscript_helpers.py:19-27 | a directory entry is neither a test nor a package, so it is copied |
| Bundle.TestsOf | utils/monkeyscript_helpers.py:21-23 | the `tests` dictionary after the first loop over a prefix of the archive; characterised by `TestsOfLatest` and proved equal to the method's map by `SortEntries` |
| Bundle.AppsOf | utils/monkeyscript_helpers.py:24-25 | the `apps` dictionary after the first loop; characterised by `AppsOfLatest` |
| Bundle.OthersOf | utils/monkeyscript_helpers.py:26-27 | the entries the first loop copies, in archive order; characterised by `OthersOfMembers` and `PassThrough` |
| Bundle.GroupOrderMembers | utils/monkeyscript_helpers.py:30 | the second pass visits exactly the groups that have a test |
| BundleProperties.GroupOrderDistinct | utils/monkeyscript_helpers.py:30 | it visits each of them exactly once |
| BundleProperties.TestsOfLatest | utils/monkeyscript_helpers.py:21-23 | a group is in `tests` exactly when some entry is a test of it, and it holds the last such test's name and entry |
| BundleProperties.AppsOfLatest | utils/monkeyscript_helpers.py:24-25 | a group is in `apps` exactly when some entry is a package of it, and it holds the last such package |
| BundleProperties.OthersOfMembers | utils/monkeyscript_helpers.py:26-27 | the copied entries are exactly the entries that are neither tests nor packages |
| Bundle.SortEntries | utils/monkeyscript_helpers.py:13-27 | the first loop leaves `tests`, `apps` and the output equal to the specification functions of the whole archive, and records the test groups in first-appearance order |
| Bundle.Pairs | utils/monkeyscript_helpers.py:30-45 | what the second loop writes for a list of groups and how it ends: per group, `MissingApp`, `BadDescriptor`, the package then `Unencodable`, or the package then the framed test; characterised by `PairsSucceed`, `PairsErrors`, `PairsLayout`, `PairsSources` and `PairsStopAtError` |
| Bundle.PairsStopAtError | utils/monkeyscript_helpers.py:44-45 | once a group has failed, the rest of the second pass adds nothing |
| Bundle.WritePairs | utils/monkeyscript_helpers.py:30-45 | the second loop appends exactly what `Pairs` writes and ends with exactly its error |
| Bundle.TransformTagged | utils/monkeyscript_helpers.py:7-45 | the whole call on a classified archive: the copies, then the second pass over the test groups in `GroupOrder`, for any framing function |
| Bundle.Transform | utils/monkeyscript_helpers.py:7-45 | the whole call with `FrameTestFile`; characterised by `CopiesPlainBundle`, `TransformSucceeds`, `MissingAppFails`, `TransformErrors`, `TransformAt`, `TransformLayout`, `TransformSources` and the lemmas after them |
| Bundle.FrameTestsInBundle | utils/monkeyscript_helpers.py:7-45 | the output and the error of the whole call are those of `Transform` |
| BundleProperties.PairsSucceed | utils/monkeyscript_helpers.py:30-45 | the second pass succeeds exactly when every visited group has a package whose descriptor can be read and whose name and UUID are ASCII |
| BundleProperties.PairsErrors | utils/monkeyscript_helpers.py:31-45 | an error names a visited group without a package (`MissingApp`), one whose descriptor cannot be read (`BadDescriptor`), or one whose package's name or UUID is not ASCII (`Unencodable`) |
| BundleProperties.PairsLayout | utils/monkeyscript_helpers.py:30-43 | after a successful second pass, the `k`-th group's package is at `2k` and its framed test at `2k + 1` |
| BundleProperties.PairsSources | utils/monkeyscript_helpers.py:30-43 | everything the second pass writes, even before an error, is the package or the framed test of a visited group |
| BundleProperties.TagFacts | utils/monkeyscript_helpers.py:18-20 | classification keeps every entry, and entries with the same name are classified alike |
| BundleProperties.PassThrough | utils/monkeyscript_helpers.py:18-27 | the copied entries open the output in archive order, with their names and bytes unchanged, and are exactly the entries that are neither tests nor packages |
| BundleProperties.OthersPlain | utils/monkeyscript_helpers.py:18-27 | an archive without tests or packages leaves `tests` and `apps` empty, visits no group, and copies every entry in order |
| BundleProperties.CopiesPlainBundle | utils/monkeyscript_helpers.py:7-45 | a bundle with neither tests nor packages is copied as it is, without error |
| BundleProperties.TransformSucceeds | utils/monkeyscript_helpers.py:30-45 | the call succeeds exactly when every test group has a package whose descriptor can be read and whose name and UUID are ASCII |
| BundleProperties.MissingAppFails | utils/monkeyscript_helpers.py:31-45 | a directory with a test and no package makes the call fail |
| BundleProperties.TransformErrors | utils/monkeyscript_helpers.py:31-45 | an error names a test group without a package, one whose package's descriptor cannot be read, or one whose package's name or UUID is not ASCII |
| BundleProperties.TransformAt | utils/monkeyscript_helpers.py:30-43 | on success, the output has the copies then two entries per visited group; the package and framed test of `GroupOrder(items)[k]` sit at the `k`-th pair of slots |
| BundleProperties.TransformLayout | utils/monkeyscript_helpers.py:30-43 | on success, every test group has a readable package, and both the package and the script framed with its name and UUID are written next to each other after the copies |
| BundleProperties.TransformSources | utils/monkeyscript_helpers.py:18-43 | every entry written after the copies is the package or the framed test of some test group |
| BundleProperties.WrittenEntrySource | utils/monkeyscript_helpers.py:18-43 | every written entry is a copied entry of the archive, or the package or framed test of some test group |
| BundleProperties.NotCopied | utils/monkeyscript_helpers.py:21-27 | an entry named like a test or a package is never one of the copies |
| BundleProperties.PairedNames | utils/monkeyscript_helpers.py:23-43 | a written package carries the name of a package entry of its group, and a written framed test that of a test entry |
| BundleProperties.PackagesWritten | utils/monkeyscript_helpers.py:24-43 | a package reaches the output only when its group also has a test, and only as that group's last package: unpaired and replaced packages are dropped |
| BundleProperties.TestsWritten | utils/monkeyscript_helpers.py:21-43 | anything written under a script's name is the framed text of its group's last test, and its group has a readable package |
| BundleProperties.WrittenScript | utils/monkeyscript_helpers.py:40-43 | a script reaches the output only as `FrameTestFile` of its group's last test, with the package's name and UUID, and the script can be read back from it |
| Framing.Lines | utils/monkeyscript_helpers.py:86 | `readlines`: the script cut after each newline, the last line possibly without one; characterised by `LineLength`, `LinesSplit` and `LinesOfConcat` |
| Framing.LineLength | utils/monkeyscript_helpers.py:86 | the first line ends at the first newline, which it keeps, or at the end of the text |
| Framing.LinesSplit | utils/monkeyscript_helpers.py:86 | joining the lines `readlines` returns gives the script back, and each is non-empty and only the last may lack its newline |
| Framing.LinesOfConcat | utils/monkeyscript_helpers.py:86 | re-splitting a well-formed sequence of lines gives it back |
| Framing.Content | utils/monkeyscript_helpers.py:86 | the `content` argument: every line behind four spaces, joined; characterised by `ContentLines`, `UnindentContent`, `SingleLineContent` and `ContentLength` |
| Framing.IndentedWellFormed | utils/monkeyscript_helpers.py:86 | indented lines are still lines |
| Framing.ContentLines | utils/monkeyscript_helpers.py:86 | the lines of the content are the script's lines, each behind four spaces, in their original order |
| Framing.UnindentContent | utils/monkeyscript_helpers.py:86 | removing the four spaces from every line of the content recovers the script |
| Framing.SingleLineContent | utils/monkeyscript_helpers.py:86 | a one-line script becomes that line behind four spaces |
| Framing.IndentedLength | utils/monkeyscript_helpers.py:86 | indenting adds four characters per line |
| Framing.ContentLength | utils/monkeyscript_helpers.py:86 | the content is as long as the script plus four per line, and is empty exactly when the script is |
| Framing.FrameTestFile | utils/monkeyscript_helpers.py:48-87 | `frame_test_file`: the template with the test name, UUID, application name and content substituted; characterised by `FrameLiterals`, `FrameLength`, `UnframeFrame` and `FrameInjective` |
| Framing.TemplatePieces | utils/monkeyscript_helpers.py:55-81 | in the concatenation of the template's nine pieces, the first opens it, the last closes it, and each substituted piece occurs in it |
| Framing.FrameLiterals | utils/monkeyscript_helpers.py:55-87 | the framed text opens with the metadata, holds `test <name> {`, `remove_app_if_installed "<uuid>"`, `launch_app "<app>"` and the indented script verbatim, and ends with `\n}\n` |
| Framing.FrameLength | utils/monkeyscript_helpers.py:55-87 | the framed text is 316 characters of template plus the three names, the script, and four per line |
| Framing.UnframeFrame | utils/monkeyscript_helpers.py:55-87 | the script can be read back from the framed text |
| Framing.FrameInjective | utils/monkeyscript_helpers.py:55-87 | with the names fixed, different scripts give different framed texts |
| Scenario.ScriptContent | utils/monkeyscript_helpers.py:86 | the one-line script `press BACK` is indented once |
| Scenario.ScriptKind | utils/monkeyscript_helpers.py:19-23 | `testA/script.monkey` is the test `script` of group `testA` |
| Scenario.PackageKind | utils/monkeyscript_helpers.py:19-25 | `testA/app.pbw` is the package of group `testA` |
| Scenario.OneDirectory | utils/monkeyscript_helpers.py:7-45 | an archive holding a test and then its package writes the package, then the framed test, without error; if the package's name or UUID is not ASCII, it writes the package and fails with `Unencodable` |
| Scenario.OneDirectoryTagged | utils/monkeyscript_helpers.py:18-43 | the same for an archive already classified, and for any framing function |
| Scenario.FirstPassOfPair | utils/monkeyscript_helpers.py:18-27 | the first pass over a test and its package records one group with both and copies nothing |
| Scenario.FirstPassOfTest | utils/monkeyscript_helpers.py:18-27 | the first pass over a lone test records it under its group and copies nothing |
| Scenario.SingleGroup | utils/monkeyscript_helpers.py:7-45 | the bundle `testA/script.monkey`, `testA/app.pbw` becomes the package, then the script framed as test `script` of `MyApp` with UUID `1234` |
| Scenario.SingleGroupText | utils/monkeyscript_helpers.py:55-87 | that framed script holds `test script {`, `remove_app_if_installed "1234"`, `launch_app "MyApp"` and `    press BACK` |

## Left out

- Zip I/O. This covers opening the archives, including the input's `'a'` mode, `infolist`, `read`, `open` and `writestr`. An archive is its entry list, and the output is the sequence of entries written.
- Entry metadata. `ZipInfo` fields other than the name (dates, permissions, compression) are not modelled. Entries are written under their own names.
- Opening the package as a nested zip and parsing `appinfo.json` are foreign library calls. They are the parameter `descriptor`. Every failure (a bad zip, a missing `appinfo.json`, malformed JSON, a missing key) is one `None`, reported as `BadDescriptor`, with no distinction between exception types. JSON values that are not strings are not modelled.
- Python 2's dictionary iteration order is replaced by first appearance (`GroupOrder`). It decides which error is reported when several directories fail, which pairs are written before that error, and in what order the pairs are written.
- Duplicate entry names. The source copies a plain entry with `zip_in.read(entry.filename)`, which reads the last entry of that name. The model writes each copied entry's own data. They differ only when an archive holds two entries of the same name.
- Bytes and text encoding. Entry data and script text are strings of characters. `cStringIO` and file-object semantics are not modelled: a script is its full text, split into lines as `readlines` does.
- A non-ASCII test name. Whether `zipfile` returns an entry name as unicode depends on the entry's UTF-8 flag, which is not modelled. The model raises `Unencodable` only for a non-ASCII application name or UUID, which `json.loads` always returns as unicode.
- `if app:` is always true for a `ZipInfo` found in `apps`. The model tests only that the group has a package.
- BundleProperties.TransformAt: fixes a group's slot by its `GroupOrder` position, which stands in for Python 2's unspecified dictionary order. The source promises only that some pair of slots holds it, which `TransformLayout` states.
