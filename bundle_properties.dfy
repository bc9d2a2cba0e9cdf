/** What `frame_tests_in_bundle` promises about the archive it writes. */
module BundleProperties {
  import opened Wrappers
  import opened Paths
  import opened Framing
  import opened Bundle

  // ---------------------------------------------------------------------------
  // Classification
  // ---------------------------------------------------------------------------

  /** The extension of an entry's file name ends the entry's name. */
  lemma ExtensionEndsName(name: string)
    ensures var ext := SplitExt(SplitPath(name).1).1;
      |ext| <= |name| && name[|name| - |ext|..] == ext
  {
    SplitPathTail(name);
    var tail := SplitPath(name).1;
    var split := SplitExt(tail);
    SplitExtParts(tail);
    assert split.1 == tail[|tail| - |split.1|..];
  }

  /** A classified test or package name ends with its extension, compared exactly. */
  lemma ClassifySuffix(name: string)
    ensures Classify(name).Test? ==> |name| >= |TestExt| && name[|name| - |TestExt|..] == TestExt
    ensures Classify(name).App? ==> |name| >= |AppExt| && name[|name| - |AppExt|..] == AppExt
  {
    var ext := SplitExt(SplitPath(name).1).1;
    ExtensionEndsName(name);
    assert Classify(name).Test? ==> ext == TestExt;
    assert Classify(name).App? ==> ext == AppExt;
  }

  /** `dir/base.monkey` is the test `base` of group `dir`; `dir/base.pbw` is the package of group `dir`. */
  lemma ClassifyJoin(dir: string, base: string)
    requires Sep !in base && exists k :: 0 <= k < |base| && base[k] != ExtSep
    requires dir == [] || dir[|dir| - 1] != Sep
    ensures Classify(if dir == [] then base + TestExt else dir + [Sep] + (base + TestExt)) == Test(dir, base)
    ensures Classify(if dir == [] then base + AppExt else dir + [Sep] + (base + AppExt)) == App(dir)
  {
    ExtensionsShape();
    ClassifyJoinExt(dir, base, TestExt);
    ClassifyJoinExt(dir, base, AppExt);
  }

  /** Proof step for `ClassifyJoin`: both extensions are a `.` followed by neither `.` nor separator. */
  lemma ExtensionsShape()
    ensures |TestExt| >= 1 && TestExt[0] == ExtSep && ExtSep !in TestExt[1..] && Sep !in TestExt
    ensures |AppExt| >= 1 && AppExt[0] == ExtSep && ExtSep !in AppExt[1..] && Sep !in AppExt
  {
    assert TestExt[1..] == "monkey";
    assert AppExt[1..] == "pbw";
  }

  lemma ClassifyJoinExt(dir: string, base: string, ext: string)
    requires Sep !in base && exists k :: 0 <= k < |base| && base[k] != ExtSep
    requires dir == [] || dir[|dir| - 1] != Sep
    requires |ext| >= 1 && ext[0] == ExtSep && ExtSep !in ext[1..] && Sep !in ext
    ensures var kind := Classify(if dir == [] then base + ext else dir + [Sep] + (base + ext));
      && (ext == TestExt ==> kind == Test(dir, base))
      && (ext == AppExt ==> kind == App(dir))
  {
    SplitPathJoin(dir, base + ext);
    SplitExtJoin(base, ext);
  }

  /** A directory entry has an empty file name and is copied like any other file. */
  lemma ClassifyDirectory(name: string)
    requires name != [] && name[|name| - 1] == Sep
    ensures Classify(name) == Other
  {
    SplitPathDirectory(name);
  }

  // ---------------------------------------------------------------------------
  // The buckets filled by the first pass
  // ---------------------------------------------------------------------------

  /** A group has a test exactly when some entry is a test of it, and it keeps the last one. */
  lemma {:induction false} TestsOfLatest(items: seq<Item>, g: string)
    ensures g in TestsOf(items) <==> exists i :: 0 <= i < |items| && IsTestIn(items[i], g)
    ensures g in TestsOf(items) ==>
      exists i :: 0 <= i < |items| && IsTestIn(items[i], g) &&
        TestsOf(items)[g] == (items[i].kind.testName, items[i].entry) &&
        (forall j :: i < j < |items| ==> !IsTestIn(items[j], g))
  {
    if items != [] {
      var n := |items| - 1;
      var init, last := items[..n], items[n];
      TestsOfLatest(init, g);
      if IsTestIn(last, g) {
        assert TestsOf(items)[g] == (last.kind.testName, last.entry);
      } else {
        assert (g in TestsOf(items)) == (g in TestsOf(init));
        if i :| 0 <= i < |items| && IsTestIn(items[i], g) {
          assert init[i] == items[i];
        }
        if g in TestsOf(init) {
          var i :| 0 <= i < |init| && IsTestIn(init[i], g) && TestsOf(init)[g] == (init[i].kind.testName, init[i].entry) &&
            (forall j :: i < j < |init| ==> !IsTestIn(init[j], g));
          assert init[i] == items[i];
          forall j | i < j < |items| ensures !IsTestIn(items[j], g) {
            if j < n {
              assert init[j] == items[j];
            }
          }
          assert TestsOf(items)[g] == TestsOf(init)[g];
        }
      }
    }
  }

  /** A group has a package exactly when some entry is a package of it, and it keeps the last one. */
  lemma {:induction false} AppsOfLatest(items: seq<Item>, g: string)
    ensures g in AppsOf(items) <==> exists i :: 0 <= i < |items| && IsAppIn(items[i], g)
    ensures g in AppsOf(items) ==>
      exists i :: 0 <= i < |items| && IsAppIn(items[i], g) &&
        AppsOf(items)[g] == items[i].entry &&
        (forall j :: i < j < |items| ==> !IsAppIn(items[j], g))
  {
    if items != [] {
      var n := |items| - 1;
      var init, last := items[..n], items[n];
      AppsOfLatest(init, g);
      if IsAppIn(last, g) {
        assert AppsOf(items)[g] == last.entry;
      } else {
        assert (g in AppsOf(items)) == (g in AppsOf(init));
        if i :| 0 <= i < |items| && IsAppIn(items[i], g) {
          assert init[i] == items[i];
        }
        if g in AppsOf(init) {
          var i :| 0 <= i < |init| && IsAppIn(init[i], g) && AppsOf(init)[g] == init[i].entry &&
            (forall j :: i < j < |init| ==> !IsAppIn(init[j], g));
          assert init[i] == items[i];
          forall j | i < j < |items| ensures !IsAppIn(items[j], g) {
            if j < n {
              assert init[j] == items[j];
            }
          }
          assert AppsOf(items)[g] == AppsOf(init)[g];
        }
      }
    }
  }

  /** The copied entries are exactly the entries that are neither tests nor packages. */
  lemma {:induction false} OthersOfMembers(items: seq<Item>)
    ensures forall e :: e in OthersOf(items) <==> exists i :: 0 <= i < |items| && items[i].entry == e && items[i].kind.Other?
  {
    if items != [] {
      var init := items[..|items| - 1];
      OthersOfMembers(init);
      assert forall i :: 0 <= i < |init| ==> init[i] == items[i];
    }
  }

  /** The groups visited are the test groups, each exactly once. */
  lemma {:induction false} GroupOrderDistinct(items: seq<Item>)
    ensures |GroupOrder(items)| == |TestsOf(items).Keys|
    ensures forall i, j :: 0 <= i < j < |GroupOrder(items)| ==> GroupOrder(items)[i] != GroupOrder(items)[j]
  {
    if items != [] {
      var init := items[..|items| - 1];
      GroupOrderDistinct(init);
      GroupOrderMembers(init);
      var t0, t1 := TestsOf(init), TestsOf(items);
      var kind := items[|items| - 1].kind;
      if kind.Test? {
        if kind.group in t0 {
          assert t1.Keys == t0.Keys;
        } else {
          assert t1.Keys == t0.Keys + {kind.group};
        }
      }
    }
  }

  // ---------------------------------------------------------------------------
  // The second pass
  // ---------------------------------------------------------------------------

  /** `e` is one of the two entries written for group `g`: its package or its framed test. */
  predicate PairedOutput(e: Entry, g: string, tests: map<string, TestRecord>, apps: map<string, Entry>,
                         descriptor: string -> Option<AppInfo>, frame: Frame)
  {
    g in tests && g in apps && descriptor(apps[g].data).Some? &&
    (e == apps[g] || e == FramedTest(frame, tests[g], descriptor(apps[g].data).value))
  }

  /** `e` is one of the two entries written for some test group. */
  ghost predicate FromSomeGroup(e: Entry, tests: map<string, TestRecord>, apps: map<string, Entry>,
                                descriptor: string -> Option<AppInfo>, frame: Frame)
  {
    exists g :: PairedOutput(e, g, tests, apps, descriptor, frame)
  }

  /** The second pass succeeds exactly when every visited group has a readable package whose fields can be encoded. */
  lemma {:induction false} PairsSucceed(groups: seq<string>, tests: map<string, TestRecord>,
                                        apps: map<string, Entry>, descriptor: string -> Option<AppInfo>, frame: Frame)
    requires forall g :: g in groups ==> g in tests
    ensures Pairs(groups, tests, apps, descriptor, frame).error == None <==>
      forall g :: g in groups ==>
        g in apps && descriptor(apps[g].data).Some? && Encodable(descriptor(apps[g].data).value)
  {
    if groups != [] {
      var init, last := groups[..|groups| - 1], groups[|groups| - 1];
      PairsSucceed(init, tests, apps, descriptor, frame);
      assert forall g :: g in groups <==> g in init || g == last by {
        assert groups == init + [last];
      }
    }
  }

  /**
   * The error names a visited group that lacks a package, whose package
   * cannot be read, or whose package's fields cannot be encoded.
   */
  lemma {:induction false} PairsErrors(groups: seq<string>, tests: map<string, TestRecord>,
                                       apps: map<string, Entry>, descriptor: string -> Option<AppInfo>, frame: Frame)
    requires forall g :: g in groups ==> g in tests
    ensures var err := Pairs(groups, tests, apps, descriptor, frame).error;
      (err.Some? && err.value.MissingApp? ==> err.value.group in groups && err.value.group !in apps) &&
      (err.Some? && err.value.BadDescriptor? ==>
        err.value.group in groups && err.value.group in apps && descriptor(apps[err.value.group].data).None?) &&
      (err.Some? && err.value.Unencodable? ==>
        err.value.group in groups && err.value.group in apps && descriptor(apps[err.value.group].data).Some? &&
        !Encodable(descriptor(apps[err.value.group].data).value))
  {
    if groups != [] {
      var init := groups[..|groups| - 1];
      PairsErrors(init, tests, apps, descriptor, frame);
      assert groups == init + [groups[|groups| - 1]];
    }
  }

  /** After a successful second pass, group `k`'s package sits at `2k` and its framed test at `2k + 1`. */
  lemma {:induction false} PairsLayout(groups: seq<string>, tests: map<string, TestRecord>,
                                       apps: map<string, Entry>, descriptor: string -> Option<AppInfo>, frame: Frame)
    requires forall g :: g in groups ==> g in tests
    requires Pairs(groups, tests, apps, descriptor, frame).error == None
    ensures var written := Pairs(groups, tests, apps, descriptor, frame).written;
      |written| == 2 * |groups| &&
      forall k :: 0 <= k < |groups| ==>
        groups[k] in apps && descriptor(apps[groups[k]].data).Some? &&
        written[2 * k] == apps[groups[k]] &&
        written[2 * k + 1] == FramedTest(frame, tests[groups[k]], descriptor(apps[groups[k]].data).value)
  {
    if groups != [] {
      var n := |groups| - 1;
      var init, g := groups[..n], groups[n];
      var prev := Pairs(init, tests, apps, descriptor, frame);
      assert prev.error == None && g in apps && descriptor(apps[g].data).Some?;
      PairsLayout(init, tests, apps, descriptor, frame);
      var written := Pairs(groups, tests, apps, descriptor, frame).written;
      assert written == prev.written + [apps[g], FramedTest(frame, tests[g], descriptor(apps[g].data).value)];
      forall k | 0 <= k < |groups|
        ensures groups[k] in apps && descriptor(apps[groups[k]].data).Some?
        ensures written[2 * k] == apps[groups[k]]
        ensures written[2 * k + 1] == FramedTest(frame, tests[groups[k]], descriptor(apps[groups[k]].data).value)
      {
        if k < n {
          assert groups[k] == init[k];
          assert written[2 * k] == prev.written[2 * k] && written[2 * k + 1] == prev.written[2 * k + 1];
        }
      }
    }
  }

  /** Whatever the second pass writes, even before an error, is a package or a framed test of a visited group. */
  lemma {:induction false} PairsSources(groups: seq<string>, tests: map<string, TestRecord>,
                                        apps: map<string, Entry>, descriptor: string -> Option<AppInfo>, frame: Frame)
    requires forall g :: g in groups ==> g in tests
    ensures forall e :: e in Pairs(groups, tests, apps, descriptor, frame).written ==>
      exists g :: g in groups && PairedOutput(e, g, tests, apps, descriptor, frame)
  {
    if groups != [] {
      var init := groups[..|groups| - 1];
      PairsSources(init, tests, apps, descriptor, frame);
      var g := groups[|groups| - 1];
      assert g in groups;
      assert forall h :: h in init ==> h in groups;
    }
  }

  // ---------------------------------------------------------------------------
  // The whole transformation
  // ---------------------------------------------------------------------------

  /** Classifying an archive keeps its entries and gives entries of the same name the same kind. */
  lemma TagFacts(es: seq<Entry>)
    ensures |Tag(es)| == |es|
    ensures forall i :: 0 <= i < |es| ==> Tag(es)[i].entry == es[i] && Tag(es)[i].kind == Classify(es[i].name)
    ensures Consistent(Tag(es))
  {
  }

  /**
   * Every entry that is neither a test nor a package is written with the same
   * name and bytes; these copies come first, in archive order.
   */
  lemma PassThrough(items: seq<Item>, descriptor: string -> Option<AppInfo>, frame: Frame)
    ensures OthersOf(items) <= TransformTagged(items, descriptor, frame).written
    ensures forall e :: e in OthersOf(items) <==> exists i :: 0 <= i < |items| && items[i].entry == e && items[i].kind.Other?
  {
    OthersOfMembers(items);
  }

  /** The entries of a classified archive. */
  function Entries(items: seq<Item>): seq<Entry> {
    seq(|items|, i requires 0 <= i < |items| => items[i].entry)
  }

  lemma {:induction false} OthersPlain(items: seq<Item>)
    requires forall i :: 0 <= i < |items| ==> items[i].kind.Other?
    ensures TestsOf(items) == map[] && AppsOf(items) == map[]
    ensures GroupOrder(items) == [] && OthersOf(items) == Entries(items)
  {
    if items != [] {
      var init := items[..|items| - 1];
      OthersPlain(init);
      assert Entries(items) == Entries(init) + [items[|items| - 1].entry];
    }
  }

  /** A bundle with neither tests nor packages is copied as it is. */
  lemma CopiesPlainBundle(es: seq<Entry>, descriptor: string -> Option<AppInfo>)
    requires forall i :: 0 <= i < |es| ==> Classify(es[i].name).Other?
    ensures Transform(es, descriptor) == Outcome(es, None)
  {
    TagFacts(es);
    OthersPlain(Tag(es));
    assert Entries(Tag(es)) == es;
  }

  /** The call succeeds exactly when every test group has a package whose descriptor can be read and encoded. */
  lemma TransformSucceeds(items: seq<Item>, descriptor: string -> Option<AppInfo>, frame: Frame)
    ensures var tests, apps := TestsOf(items), AppsOf(items);
      TransformTagged(items, descriptor, frame).error == None <==>
        forall g :: g in tests ==>
          g in apps && descriptor(apps[g].data).Some? && Encodable(descriptor(apps[g].data).value)
  {
    GroupOrderMembers(items);
    PairsSucceed(GroupOrder(items), TestsOf(items), AppsOf(items), descriptor, frame);
    assert TransformTagged(items, descriptor, frame).error == Pairs(GroupOrder(items), TestsOf(items), AppsOf(items), descriptor, frame).error;
    var apps := AppsOf(items);
    assert (forall g :: g in GroupOrder(items) ==>
              g in apps && descriptor(apps[g].data).Some? && Encodable(descriptor(apps[g].data).value)) <==>
      (forall g :: g in TestsOf(items) ==>
         g in apps && descriptor(apps[g].data).Some? && Encodable(descriptor(apps[g].data).value));
  }

  /** A directory that holds a test but no package makes the call fail. */
  lemma MissingAppFails(items: seq<Item>, descriptor: string -> Option<AppInfo>, frame: Frame, g: string)
    requires exists i :: 0 <= i < |items| && IsTestIn(items[i], g)
    requires forall j :: 0 <= j < |items| ==> !IsAppIn(items[j], g)
    ensures TransformTagged(items, descriptor, frame).error.Some?
  {
    TestsOfLatest(items, g);
    AppsOfLatest(items, g);
    TransformSucceeds(items, descriptor, frame);
  }

  /**
   * The error names a test group without a package, one whose package's
   * descriptor cannot be read, or one whose package's fields cannot be encoded.
   */
  lemma TransformErrors(items: seq<Item>, descriptor: string -> Option<AppInfo>, frame: Frame)
    ensures var tests, apps := TestsOf(items), AppsOf(items);
      var err := TransformTagged(items, descriptor, frame).error;
      (err.Some? && err.value.MissingApp? ==> err.value.group in tests && err.value.group !in apps) &&
      (err.Some? && err.value.BadDescriptor? ==>
        err.value.group in tests && err.value.group in apps && descriptor(apps[err.value.group].data).None?) &&
      (err.Some? && err.value.Unencodable? ==>
        err.value.group in tests && err.value.group in apps && descriptor(apps[err.value.group].data).Some? &&
        !Encodable(descriptor(apps[err.value.group].data).value))
  {
    GroupOrderMembers(items);
    PairsErrors(GroupOrder(items), TestsOf(items), AppsOf(items), descriptor, frame);
  }

  /**
   * On success, after the copies come two entries per test group: the
   * group's package, unchanged, then its framed script under the script's
   * own name, framed with the package's name and identifier.
   */
  lemma TransformLayout(items: seq<Item>, descriptor: string -> Option<AppInfo>, frame: Frame, g: string)
    requires TransformTagged(items, descriptor, frame).error == None
    requires g in TestsOf(items)
    ensures |TransformTagged(items, descriptor, frame).written| == |OthersOf(items)| + 2 * |TestsOf(items).Keys|
    ensures g in AppsOf(items) && descriptor(AppsOf(items)[g].data).Some?
    ensures exists k ::
      && 0 <= k < |TestsOf(items).Keys|
      && TransformTagged(items, descriptor, frame).written[|OthersOf(items)| + 2 * k] == AppsOf(items)[g]
      && TransformTagged(items, descriptor, frame).written[|OthersOf(items)| + 2 * k + 1] ==
         FramedTest(frame, TestsOf(items)[g], descriptor(AppsOf(items)[g].data).value)
  {
    GroupOrderMembers(items);
    GroupOrderLength(items);
    var k :| 0 <= k < |GroupOrder(items)| && GroupOrder(items)[k] == g;
    TransformAt(items, descriptor, frame, k, g);
    var written, skip := TransformTagged(items, descriptor, frame).written, |OthersOf(items)|;
    assert written[skip + 2 * k] == AppsOf(items)[g];
  }

  /** The second pass makes one visit per test group. */
  lemma GroupOrderLength(items: seq<Item>)
    ensures |GroupOrder(items)| == |TestsOf(items).Keys|
  {
    GroupOrderDistinct(items);
  }

  /** On success, the `k`-th visited group's package and framed test follow the copies at `2k` and `2k + 1`. */
  lemma TransformAt(items: seq<Item>, descriptor: string -> Option<AppInfo>, frame: Frame, k: nat, g: string)
    requires TransformTagged(items, descriptor, frame).error == None
    requires k < |GroupOrder(items)| && GroupOrder(items)[k] == g
    ensures |TransformTagged(items, descriptor, frame).written| == |OthersOf(items)| + 2 * |GroupOrder(items)|
    ensures g in TestsOf(items) && g in AppsOf(items) && descriptor(AppsOf(items)[g].data).Some?
    ensures TransformTagged(items, descriptor, frame).written[|OthersOf(items)| + 2 * k] == AppsOf(items)[g]
    ensures TransformTagged(items, descriptor, frame).written[|OthersOf(items)| + 2 * k + 1] ==
      FramedTest(frame, TestsOf(items)[g], descriptor(AppsOf(items)[g].data).value)
  {
    var order, tests, apps := GroupOrder(items), TestsOf(items), AppsOf(items);
    GroupOrderMembers(items);
    PairsLayout(order, tests, apps, descriptor, frame);
    var others := OthersOf(items);
    var paired := Pairs(order, tests, apps, descriptor, frame).written;
    assert TransformTagged(items, descriptor, frame).written == others + paired;
  }

  /** Everything written after the copies is a package or a framed test of a test group. */
  lemma TransformSources(items: seq<Item>, descriptor: string -> Option<AppInfo>, frame: Frame)
    ensures var written := TransformTagged(items, descriptor, frame).written;
      forall k :: |OthersOf(items)| <= k < |written| ==>
        FromSomeGroup(written[k], TestsOf(items), AppsOf(items), descriptor, frame)
  {
    var order := GroupOrder(items);
    GroupOrderMembers(items);
    PairsSources(order, TestsOf(items), AppsOf(items), descriptor, frame);
    var others := OthersOf(items);
    var paired := Pairs(order, TestsOf(items), AppsOf(items), descriptor, frame).written;
    var written := TransformTagged(items, descriptor, frame).written;
    assert written == others + paired;
    forall k | |others| <= k < |written|
      ensures FromSomeGroup(written[k], TestsOf(items), AppsOf(items), descriptor, frame)
    {
      assert written[k] == paired[k - |others|];
      assert paired[k - |others|] in paired;
    }
  }

  /** A written entry, if it is not one of the copies, is the package or the framed test of some test group. */
  lemma WrittenEntrySource(items: seq<Item>, descriptor: string -> Option<AppInfo>, frame: Frame, e: Entry)
    requires e in TransformTagged(items, descriptor, frame).written
    ensures (exists i :: 0 <= i < |items| && items[i].entry == e && items[i].kind.Other?) ||
      FromSomeGroup(e, TestsOf(items), AppsOf(items), descriptor, frame)
  {
    var written := TransformTagged(items, descriptor, frame).written;
    var k :| 0 <= k < |written| && written[k] == e;
    PassThrough(items, descriptor, frame);
    TransformSources(items, descriptor, frame);
    if k < |OthersOf(items)| {
      assert e in OthersOf(items);
    } else {
      assert FromSomeGroup(written[k], TestsOf(items), AppsOf(items), descriptor, frame);
    }
  }

  /** In a consistent archive, an entry named like a test or a package is never one of the copies. */
  lemma NotCopied(items: seq<Item>, i: nat, e: Entry)
    requires Consistent(items)
    requires i < |items| && !items[i].kind.Other? && e.name == items[i].entry.name
    ensures !exists j :: 0 <= j < |items| && items[j].entry == e && items[j].kind.Other?
  {
    forall j | 0 <= j < |items| && items[j].entry == e
      ensures !items[j].kind.Other?
    {
      assert items[j].kind == items[i].kind;
    }
  }

  /**
   * The package written for group `g` carries the name of a package entry of
   * `g`, its framed test the name of a test entry of `g`.
   */
  lemma PairedNames(items: seq<Item>, descriptor: string -> Option<AppInfo>, frame: Frame, e: Entry, g: string)
    requires PairedOutput(e, g, TestsOf(items), AppsOf(items), descriptor, frame)
    ensures exists j ::
      && 0 <= j < |items| && items[j].entry.name == e.name
      && (IsAppIn(items[j], g) || IsTestIn(items[j], g))
      && (IsAppIn(items[j], g) ==> e == AppsOf(items)[g])
      && (IsTestIn(items[j], g) ==> e != AppsOf(items)[g])
  {
    TestsOfLatest(items, g);
    AppsOfLatest(items, g);
    var apps := AppsOf(items);
    var a :| 0 <= a < |items| && IsAppIn(items[a], g) && apps[g] == items[a].entry;
    var t :| 0 <= t < |items| && IsTestIn(items[t], g) && TestsOf(items)[g].1 == items[t].entry;
    if e == apps[g] {
      assert !IsTestIn(items[a], g);
    } else {
      assert items[t].entry.name == e.name;
    }
  }

  /**
   * A package reaches the output only as the last package of a directory
   * that also holds a test: a package without a test, or one replaced by a
   * later package of the same directory, is dropped.
   */
  lemma PackagesWritten(items: seq<Item>, descriptor: string -> Option<AppInfo>, frame: Frame, i: nat)
    requires Consistent(items)
    requires i < |items| && items[i].kind.App?
    requires items[i].entry in TransformTagged(items, descriptor, frame).written
    ensures items[i].kind.group in TestsOf(items)
    ensures items[i].kind.group in AppsOf(items) && items[i].entry == AppsOf(items)[items[i].kind.group]
  {
    var e := items[i].entry;
    WrittenEntrySource(items, descriptor, frame, e);
    NotCopied(items, i, e);
    var g :| PairedOutput(e, g, TestsOf(items), AppsOf(items), descriptor, frame);
    PairedNames(items, descriptor, frame, e, g);
    var j :| 0 <= j < |items| && items[j].entry.name == e.name &&
      (IsAppIn(items[j], g) || IsTestIn(items[j], g)) &&
      (IsAppIn(items[j], g) ==> e == AppsOf(items)[g]);
    assert items[j].kind == items[i].kind;
    TestsOfLatest(items, g);
  }

  /** A script reaches the output only framed, as the last test of a directory that has a package. */
  lemma TestsWritten(items: seq<Item>, descriptor: string -> Option<AppInfo>, frame: Frame, i: nat, e: Entry)
    requires Consistent(items)
    requires i < |items| && items[i].kind.Test?
    requires e in TransformTagged(items, descriptor, frame).written && e.name == items[i].entry.name
    ensures var g, tests, apps := items[i].kind.group, TestsOf(items), AppsOf(items);
      g in tests && g in apps && descriptor(apps[g].data).Some? &&
      e == FramedTest(frame, tests[g], descriptor(apps[g].data).value)
  {
    WrittenEntrySource(items, descriptor, frame, e);
    NotCopied(items, i, e);
    var g :| PairedOutput(e, g, TestsOf(items), AppsOf(items), descriptor, frame);
    PairedNames(items, descriptor, frame, e, g);
    var j :| 0 <= j < |items| && items[j].entry.name == e.name &&
      (IsAppIn(items[j], g) || IsTestIn(items[j], g)) &&
      (IsTestIn(items[j], g) ==> e != AppsOf(items)[g]);
    assert items[j].kind == items[i].kind;
  }

  // ---------------------------------------------------------------------------
  // `frame_tests_in_bundle` itself
  // ---------------------------------------------------------------------------

  /**
   * A script entry of the archive reaches the output only as the framed text
   * of its directory's last test, framed with the name and identifier read
   * from the directory's package; the original script can be read back from it.
   */
  lemma WrittenScript(es: seq<Entry>, descriptor: string -> Option<AppInfo>, i: nat, e: Entry)
    requires i < |es| && Classify(es[i].name).Test?
    requires e in Transform(es, descriptor).written && e.name == es[i].name
    ensures var g := Classify(es[i].name).group;
      && g in TestsOf(Tag(es)) && g in AppsOf(Tag(es))
      && descriptor(AppsOf(Tag(es))[g].data).Some?
      && e.name == TestsOf(Tag(es))[g].1.name
      && e.data == FrameTestFile(TestsOf(Tag(es))[g].1.data, TestsOf(Tag(es))[g].0,
                                 descriptor(AppsOf(Tag(es))[g].data).value.shortName,
                                 descriptor(AppsOf(Tag(es))[g].data).value.uuid)
      && Unframe(e.data, TestsOf(Tag(es))[g].0, descriptor(AppsOf(Tag(es))[g].data).value.shortName,
                 descriptor(AppsOf(Tag(es))[g].data).value.uuid) == Some(TestsOf(Tag(es))[g].1.data)
  {
    var items := Tag(es);
    TagFacts(es);
    TestsWritten(items, descriptor, FrameTestFile, i, e);
    var g := Classify(es[i].name).group;
    var test, info := TestsOf(items)[g], descriptor(AppsOf(items)[g].data).value;
    UnframeFrame(test.1.data, test.0, info.shortName, info.uuid);
  }
}
