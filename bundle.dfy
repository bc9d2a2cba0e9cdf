/**
 * `frame_tests_in_bundle`: copies a test bundle entry by entry, pairing each
 * `.monkey` script with the `.pbw` package of the same directory and framing
 * the script with the package's name and identifier.
 *
 * An archive is the sequence of its entries in archive order. Reading the
 * package's nested `appinfo.json` is the parameter `descriptor`.
 */
module Bundle {
  import opened Wrappers
  import opened Paths
  import opened Framing

  datatype Entry = Entry(name: string, data: string)

  /** The two fields read from a package's `appinfo.json`. */
  datatype AppInfo = AppInfo(shortName: string, uuid: string)

  datatype BundleError =
    | MissingApp(group: string)      // a test file without an accompanying PBW (ValueError)
    | BadDescriptor(group: string)   // the package could not be opened or its appinfo.json read
    | Unencodable(group: string)     // framing raised UnicodeEncodeError; the package is already written

  /** How the first pass treats an entry. */
  datatype Kind = Test(group: string, testName: string) | App(group: string) | Other

  /** Every character of `s` is ASCII. */
  predicate Ascii(s: string) {
    forall i :: 0 <= i < |s| ==> s[i] as int < 128
  }

  /**
   * The package's fields can be substituted into the template. `json.loads`
   * returns them as unicode strings, and Python 2's `str.format` encodes a
   * unicode argument as ASCII, raising `UnicodeEncodeError` otherwise.
   */
  predicate Encodable(info: AppInfo) {
    Ascii(info.shortName) && Ascii(info.uuid)
  }

  /** An entry together with the way the first pass classifies it. */
  datatype Item = Item(kind: Kind, entry: Entry)

  /** What was written to the output archive, and the error that stopped the run, if any. */
  datatype Outcome = Outcome(written: seq<Entry>, error: Option<BundleError>)

  /** A recorded test: its name and its entry. */
  type TestRecord = (string, Entry)

  /**
   * A way of framing a script: body, test name, application name and UUID
   * to the framed text. The second pass is stated for any such function;
   * `frame_tests_in_bundle` uses `FrameTestFile`.
   */
  type Frame = (string, string, string, string) -> string

  const TestExt := ".monkey"
  const AppExt := ".pbw"

  /**
   * The group key is the directory part of the name; a test's name is its
   * file name without the extension. Extensions are compared exactly.
   */
  function Classify(name: string): Kind {
    var split := SplitPath(name);
    var parts := SplitExt(split.1);
    if parts.1 == TestExt then Test(split.0, parts.0)
    else if parts.1 == AppExt then App(split.0)
    else Other
  }

  /** The archive with every entry classified. */
  function Tag(es: seq<Entry>): seq<Item> {
    seq(|es|, i requires 0 <= i < |es| => Item(Classify(es[i].name), es[i]))
  }

  predicate IsTestIn(it: Item, g: string) {
    it.kind.Test? && it.kind.group == g
  }

  predicate IsAppIn(it: Item, g: string) {
    it.kind.App? && it.kind.group == g
  }

  // ---------------------------------------------------------------------------
  // State after the first pass over a prefix of the archive
  // ---------------------------------------------------------------------------

  /** `tests`: group key to the test found last in that group. */
  function TestsOf(items: seq<Item>): map<string, TestRecord> {
    if items == [] then map[]
    else
      var tests := TestsOf(items[..|items| - 1]);
      var it := items[|items| - 1];
      match it.kind
      case Test(g, n) => tests[g := (n, it.entry)]
      case _ => tests
  }

  /** `apps`: group key to the package found last in that group. */
  function AppsOf(items: seq<Item>): map<string, Entry> {
    if items == [] then map[]
    else
      var apps := AppsOf(items[..|items| - 1]);
      var it := items[|items| - 1];
      match it.kind
      case App(g) => apps[g := it.entry]
      case _ => apps
  }

  /** The entries copied during the first pass, in archive order. */
  function OthersOf(items: seq<Item>): seq<Entry> {
    if items == [] then []
    else
      var others := OthersOf(items[..|items| - 1]);
      var it := items[|items| - 1];
      if it.kind.Other? then others + [it.entry] else others
  }

  /** The order in which the second pass visits the test groups: first appearance. */
  function GroupOrder(items: seq<Item>): seq<string> {
    if items == [] then []
    else
      var order := GroupOrder(items[..|items| - 1]);
      match items[|items| - 1].kind
      case Test(g, _) => if g in order then order else order + [g]
      case _ => order
  }

  /** The groups visited are exactly the test groups. */
  lemma {:induction false} GroupOrderMembers(items: seq<Item>)
    ensures forall g :: g in GroupOrder(items) <==> g in TestsOf(items)
  {
    if items != [] {
      GroupOrderMembers(items[..|items| - 1]);
    }
  }

  /** One step of the first pass, in terms of the kind of the entry it handles. */
  lemma FirstPassStep(items: seq<Item>, i: nat)
    requires i < |items|
    ensures var prefix, it := items[..i], items[i];
      && TestsOf(items[..i + 1]) ==
         (if it.kind.Test? then TestsOf(prefix)[it.kind.group := (it.kind.testName, it.entry)] else TestsOf(prefix))
      && AppsOf(items[..i + 1]) ==
         (if it.kind.App? then AppsOf(prefix)[it.kind.group := it.entry] else AppsOf(prefix))
      && OthersOf(items[..i + 1]) == (if it.kind.Other? then OthersOf(prefix) + [it.entry] else OthersOf(prefix))
      && GroupOrder(items[..i + 1]) ==
         (if it.kind.Test? && it.kind.group !in GroupOrder(prefix) then GroupOrder(prefix) + [it.kind.group]
          else GroupOrder(prefix))
  {
    assert items[..i + 1][..i] == items[..i];
  }

  // ---------------------------------------------------------------------------
  // The second pass and the whole transformation
  // ---------------------------------------------------------------------------

  /** The framed script written for a test, under the test entry's own name. */
  function FramedTest(frame: Frame, test: TestRecord, info: AppInfo): Entry {
    Entry(test.1.name, frame(test.1.data, test.0, info.shortName, info.uuid))
  }

  /**
   * The second pass over `groups`: per group the package, then the framed
   * script; the first failure stops it. A missing or unreadable package
   * fails before anything of the group is written, an unencodable one after
   * the package is written.
   */
  function Pairs(groups: seq<string>, tests: map<string, TestRecord>, apps: map<string, Entry>,
                 descriptor: string -> Option<AppInfo>, frame: Frame): Outcome
    requires forall g :: g in groups ==> g in tests
  {
    if groups == [] then Outcome([], None)
    else
      var prev := Pairs(groups[..|groups| - 1], tests, apps, descriptor, frame);
      var g := groups[|groups| - 1];
      if prev.error.Some? then prev
      else if g !in apps then Outcome(prev.written, Some(MissingApp(g)))
      else match descriptor(apps[g].data)
        case None => Outcome(prev.written, Some(BadDescriptor(g)))
        case Some(info) =>
          if !Encodable(info) then Outcome(prev.written + [apps[g]], Some(Unencodable(g)))
          else Outcome(prev.written + [apps[g], FramedTest(frame, tests[g], info)], None)
  }

  /** What `frame_tests_in_bundle` writes, and how it ends, for an archive already classified. */
  function TransformTagged(items: seq<Item>, descriptor: string -> Option<AppInfo>, frame: Frame): Outcome {
    GroupOrderMembers(items);
    var paired := Pairs(GroupOrder(items), TestsOf(items), AppsOf(items), descriptor, frame);
    Outcome(OthersOf(items) + paired.written, paired.error)
  }

  /** What `frame_tests_in_bundle` writes, and how it ends, for the archive `es`. */
  function Transform(es: seq<Entry>, descriptor: string -> Option<AppInfo>): Outcome {
    TransformTagged(Tag(es), descriptor, FrameTestFile)
  }

  /** Entries with the same name are classified alike. */
  predicate Consistent(items: seq<Item>) {
    forall i, j :: 0 <= i < |items| && 0 <= j < |items| && items[i].entry.name == items[j].entry.name ==>
      items[i].kind == items[j].kind
  }

  /** Once a group has failed, the rest of the second pass adds nothing. */
  lemma {:induction false} PairsStopAtError(groups: seq<string>, k: nat, tests: map<string, TestRecord>,
                                            apps: map<string, Entry>, descriptor: string -> Option<AppInfo>,
                                            frame: Frame)
    requires forall g :: g in groups ==> g in tests
    requires k <= |groups|
    requires Pairs(groups[..k], tests, apps, descriptor, frame).error.Some?
    ensures Pairs(groups, tests, apps, descriptor, frame) == Pairs(groups[..k], tests, apps, descriptor, frame)
    decreases |groups|
  {
    if k < |groups| {
      var init := groups[..|groups| - 1];
      assert init[..k] == groups[..k];
      PairsStopAtError(init, k, tests, apps, descriptor, frame);
    } else {
      assert groups[..k] == groups;
    }
  }

  /** One step of the second pass: the group `groups[j]` after the groups before it. */
  lemma PairsStep(groups: seq<string>, j: nat, tests: map<string, TestRecord>, apps: map<string, Entry>,
                  descriptor: string -> Option<AppInfo>, frame: Frame)
    requires forall g :: g in groups ==> g in tests
    requires j < |groups| && Pairs(groups[..j], tests, apps, descriptor, frame).error == None
    ensures var prev, g := Pairs(groups[..j], tests, apps, descriptor, frame), groups[j];
      Pairs(groups[..j + 1], tests, apps, descriptor, frame) ==
        if g !in apps then Outcome(prev.written, Some(MissingApp(g)))
        else if descriptor(apps[g].data).None? then Outcome(prev.written, Some(BadDescriptor(g)))
        else if !Encodable(descriptor(apps[g].data).value) then Outcome(prev.written + [apps[g]], Some(Unencodable(g)))
        else Outcome(prev.written + [apps[g], FramedTest(frame, tests[g], descriptor(apps[g].data).value)], None)
  {
    assert groups[..j + 1][..j] == groups[..j];
  }

  // ---------------------------------------------------------------------------
  // The imperative model
  // ---------------------------------------------------------------------------

  /**
   * `frame_tests_in_bundle(infile, outfile)`: `zipIn` is the input archive's
   * entry list, `zipOut` what is written to the output archive, `error` the
   * exception that ends the call, if any. The two loops of the source are
   * the methods `SortEntries` and `WritePairs`.
   */
  method FrameTestsInBundle(zipIn: seq<Entry>, descriptor: string -> Option<AppInfo>)
    returns (zipOut: seq<Entry>, error: Option<BundleError>)
    ensures Outcome(zipOut, error) == Transform(zipIn, descriptor)
  {
    var tests, apps, order;
    tests, apps, order, zipOut := SortEntries(zipIn);
    GroupOrderMembers(Tag(zipIn));
    zipOut, error := WritePairs(order, tests, apps, descriptor, FrameTestFile, zipOut);
  }

  /**
   * The first loop: records each `.monkey` entry in `tests` and each `.pbw`
   * entry in `apps` under its group key, a later one replacing an earlier
   * one, and copies every other entry to `zipOut`. `order` records the order
   * in which the second loop visits `tests`.
   */
  method SortEntries(zipIn: seq<Entry>)
    returns (tests: map<string, TestRecord>, apps: map<string, Entry>, order: seq<string>, zipOut: seq<Entry>)
    ensures tests == TestsOf(Tag(zipIn)) && apps == AppsOf(Tag(zipIn))
    ensures order == GroupOrder(Tag(zipIn)) && zipOut == OthersOf(Tag(zipIn))
  {
    ghost var items := Tag(zipIn);
    tests, apps, order, zipOut := map[], map[], [], [];
    for i := 0 to |zipIn|
      invariant tests == TestsOf(items[..i])
      invariant apps == AppsOf(items[..i])
      invariant order == GroupOrder(items[..i])
      invariant zipOut == OthersOf(items[..i])
    {
      var entry := zipIn[i];
      FirstPassStep(items, i);
      match Classify(entry.name)
      case Test(path, name) =>
        GroupOrderMembers(items[..i]);
        if path !in tests {
          order := order + [path];
        }
        tests := tests[path := (name, entry)];
      case App(path) =>
        apps := apps[path := entry];
      case Other =>
        zipOut := zipOut + [entry];
    }
    assert items[..|zipIn|] == items;
  }

  /**
   * The second loop: for each test group in `order`, writes the package
   * unchanged and then the script framed by `frame` (`FrameTestFile` in
   * `FrameTestsInBundle`); a group without a package, or whose package
   * cannot be read, ends the call with an error, and so does a package whose
   * name or UUID cannot be encoded, once the package itself is written.
   */
  method WritePairs(order: seq<string>, tests: map<string, TestRecord>, apps: map<string, Entry>,
                    descriptor: string -> Option<AppInfo>, frame: Frame, written: seq<Entry>)
    returns (zipOut: seq<Entry>, error: Option<BundleError>)
    requires forall g :: g in order ==> g in tests
    ensures zipOut == written + Pairs(order, tests, apps, descriptor, frame).written
    ensures error == Pairs(order, tests, apps, descriptor, frame).error
  {
    zipOut := written;
    for j := 0 to |order|
      invariant zipOut == written + Pairs(order[..j], tests, apps, descriptor, frame).written
      invariant Pairs(order[..j], tests, apps, descriptor, frame).error == None
    {
      var path := order[j];
      PairsStep(order, j, tests, apps, descriptor, frame);
      if path in apps {
        var app := apps[path];
        var appinfo := descriptor(app.data);
        if appinfo.None? {
          error := Some(BadDescriptor(path));
          PairsStopAtError(order, j + 1, tests, apps, descriptor, frame);
          return;
        }
        zipOut := zipOut + [app];
        var (testName, testEntry) := tests[path];
        if !Encodable(appinfo.value) {
          error := Some(Unencodable(path));
          PairsStopAtError(order, j + 1, tests, apps, descriptor, frame);
          return;
        }
        var framed := frame(testEntry.data, testName, appinfo.value.shortName, appinfo.value.uuid);
        zipOut := zipOut + [Entry(testEntry.name, framed)];
      } else {
        error := Some(MissingApp(path));
        PairsStopAtError(order, j + 1, tests, apps, descriptor, frame);
        return;
      }
    }
    assert order[..|order|] == order;
    error := None;
  }
}
