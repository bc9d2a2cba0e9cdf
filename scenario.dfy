/**
 * A bundle with one test directory: `testA/script.monkey` holding
 * `press BACK` and `testA/app.pbw`, whose `appinfo.json` names the
 * application `MyApp` with identifier `1234`.
 */
module Scenario {
  import opened Wrappers
  import opened Paths
  import opened Framing
  import opened Bundle
  import opened BundleProperties

  const ScriptPath := "testA/script.monkey"
  const PackagePath := "testA/app.pbw"
  const Script := "press BACK\n"

  /** The script is one line, so its content is that line behind the indentation. */
  lemma ScriptContent()
    ensures Content(Script) == Indentation + Script
  {
    assert IsLine(Script, true);
    SingleLineContent(Script);
  }

  /** `testA/script.monkey` is the test `script` of `testA`. */
  lemma ScriptKind()
    ensures Classify(ScriptPath) == Test("testA", "script")
  {
    assert ScriptPath == "testA" + [Sep] + ("script" + TestExt);
    assert "script"[0] != ExtSep;
    ClassifyJoin("testA", "script");
  }

  /** `testA/app.pbw` is the package of `testA`. */
  lemma PackageKind()
    ensures Classify(PackagePath) == App("testA")
  {
    assert PackagePath == "testA" + [Sep] + ("app" + AppExt);
    assert "app"[0] != ExtSep;
    ClassifyJoin("testA", "app");
  }

  /**
   * A bundle holding one test and its package, in that order: the package is
   * copied unchanged, then the test is written framed; if the package's name
   * or UUID cannot be encoded, the call fails right after the package.
   */
  lemma OneDirectory(test: Entry, package: Entry, group: string, testName: string,
                     descriptor: string -> Option<AppInfo>, info: AppInfo)
    requires Classify(test.name) == Test(group, testName) && Classify(package.name) == App(group)
    requires descriptor(package.data) == Some(info)
    ensures Transform([test, package], descriptor) ==
      if Encodable(info)
      then Outcome([package, Entry(test.name, FrameTestFile(test.data, testName, info.shortName, info.uuid))], None)
      else Outcome([package], Some(Unencodable(group)))
  {
    TagPair(test, package);
    OneDirectoryTagged(Tag([test, package]), descriptor, FrameTestFile, info);
  }

  /** Proof step for `OneDirectory`: classifying a two-entry archive. */
  lemma TagPair(a: Entry, b: Entry)
    ensures Tag([a, b]) == [Item(Classify(a.name), a), Item(Classify(b.name), b)]
  {
  }

  /** `OneDirectory` on the classified archive, for any framing function. */
  lemma OneDirectoryTagged(items: seq<Item>, descriptor: string -> Option<AppInfo>, frame: Frame, info: AppInfo)
    requires |items| == 2 && items[0].kind.Test? && items[1].kind == App(items[0].kind.group)
    requires descriptor(items[1].entry.data) == Some(info)
    ensures TransformTagged(items, descriptor, frame) ==
      if Encodable(info)
      then Outcome([items[1].entry, FramedTest(frame, (items[0].kind.testName, items[0].entry), info)], None)
      else Outcome([items[1].entry], Some(Unencodable(items[0].kind.group)))
  {
    var group := items[0].kind.group;
    FirstPassOfPair(items);
    assert [group][..0] == [] && [group][..1] == [group];
    PairsStep([group], 0, TestsOf(items), AppsOf(items), descriptor, frame);
  }

  /** The first pass over a test followed by its package records one group. */
  lemma FirstPassOfPair(items: seq<Item>)
    requires |items| == 2 && items[0].kind.Test? && items[1].kind == App(items[0].kind.group)
    ensures TestsOf(items) == map[items[0].kind.group := (items[0].kind.testName, items[0].entry)]
    ensures AppsOf(items) == map[items[0].kind.group := items[1].entry]
    ensures OthersOf(items) == [] && GroupOrder(items) == [items[0].kind.group]
  {
    assert items[..|items| - 1] == [items[0]];
    FirstPassOfTest(items[0]);
  }

  /** The first pass over a lone test records it and copies nothing. */
  lemma FirstPassOfTest(it: Item)
    requires it.kind.Test?
    ensures TestsOf([it]) == map[it.kind.group := (it.kind.testName, it.entry)]
    ensures AppsOf([it]) == map[] && OthersOf([it]) == [] && GroupOrder([it]) == [it.kind.group]
  {
    assert [it][..0] == [];
  }

  /** Proof step for `SingleGroup`: `MyApp` and `1234` are ASCII, so the template accepts them. */
  lemma InfoEncodable()
    ensures Encodable(AppInfo("MyApp", "1234"))
  {
  }

  /** The package is copied unchanged, then the script is framed with the test name `script`. */
  lemma SingleGroup(pbw: string, descriptor: string -> Option<AppInfo>)
    requires descriptor(pbw) == Some(AppInfo("MyApp", "1234"))
    ensures Transform([Entry(ScriptPath, Script), Entry(PackagePath, pbw)], descriptor) ==
      Outcome([Entry(PackagePath, pbw), Entry(ScriptPath, FrameTestFile(Script, "script", "MyApp", "1234"))], None)
  {
    ScriptKind();
    PackageKind();
    InfoEncodable();
    OneDirectory(Entry(ScriptPath, Script), Entry(PackagePath, pbw), "testA", "script", descriptor, AppInfo("MyApp", "1234"));
  }

  /** Proof step for `SingleGroupText`: the statements substituted for this bundle, spelled out. */
  lemma ScenarioStatements()
    ensures "test " + "script" + " {" == "test script {"
    ensures "remove_app_if_installed \"" + "1234" + "\"" == "remove_app_if_installed \"1234\""
    ensures "launch_app \"" + "MyApp" + "\"" == "launch_app \"MyApp\""
    ensures Indentation + Script == "    press BACK\n"
  {
  }

  /** The framed script carries the test block, the uninstall of `1234`, the launch of `MyApp` and the indented script. */
  lemma SingleGroupText()
    ensures var framed := FrameTestFile(Script, "script", "MyApp", "1234");
      && Contains(framed, "test script {")
      && Contains(framed, "remove_app_if_installed \"1234\"")
      && Contains(framed, "launch_app \"MyApp\"")
      && Contains(framed, "    press BACK\n")
  {
    FrameLiterals(Script, "script", "MyApp", "1234");
    ScriptContent();
    ScenarioStatements();
  }
}
