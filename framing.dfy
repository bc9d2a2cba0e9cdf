/**
 * `frame_test_file`: wraps a monkey script in a fixed template whose test
 * block installs and launches the app, with every script line indented.
 */
module Framing {
  import opened Wrappers

  /** The prefix `frame_test_file` puts in front of every script line. */
  const Indentation := "    "

  // ---------------------------------------------------------------------------
  // Lines as `readlines` returns them
  // ---------------------------------------------------------------------------

  /** Length of the first line of `s`: through its first newline, or all of `s`. */
  function LineLength(s: string): (k: nat)
    ensures k <= |s|
    ensures s != [] ==> k >= 1
    ensures forall j :: 0 <= j < k - 1 ==> s[j] != '\n'
    ensures k == |s| || s[k - 1] == '\n'
  {
    if s == [] then 0
    else if s[0] == '\n' then 1
    else 1 + LineLength(s[1..])
  }

  /** The lines of `s`, each keeping its terminating newline. */
  function Lines(s: string): seq<string>
    decreases |s|
  {
    if s == [] then []
    else
      var k := LineLength(s);
      [s[..k]] + Lines(s[k..])
  }

  /** `"".join(ls)`. */
  function Concat(ls: seq<string>): string {
    if ls == [] then [] else ls[0] + Concat(ls[1..])
  }

  /** `l` is a line: non-empty, no newline but possibly a final one, which only the last line may lack. */
  predicate IsLine(l: string, last: bool) {
    l != [] &&
    (forall j :: 0 <= j < |l| - 1 ==> l[j] != '\n') &&
    (!last ==> l[|l| - 1] == '\n')
  }

  predicate WellFormedLines(ls: seq<string>) {
    forall i :: 0 <= i < |ls| ==> IsLine(ls[i], i == |ls| - 1)
  }

  /** A line in front of well-formed lines keeps them well formed, and joining puts it first. */
  lemma ConsLines(l: string, rest: seq<string>)
    requires IsLine(l, rest == []) && WellFormedLines(rest)
    ensures WellFormedLines([l] + rest)
    ensures Concat([l] + rest) == l + Concat(rest)
  {
    var ls := [l] + rest;
    assert ls[1..] == rest;
    forall i | 0 <= i < |ls| ensures IsLine(ls[i], i == |ls| - 1) {
      if i > 0 {
        assert ls[i] == rest[i - 1];
      }
    }
  }

  /** Splitting into lines loses nothing, and what it produces are lines. */
  lemma {:induction false} LinesSplit(s: string)
    ensures WellFormedLines(Lines(s))
    ensures Concat(Lines(s)) == s
    decreases |s|
  {
    if s != [] {
      var k := LineLength(s);
      var rest := Lines(s[k..]);
      LinesSplit(s[k..]);
      assert Lines(s) == [s[..k]] + rest;
      assert rest == [] <==> k == |s|;
      ConsLines(s[..k], rest);
      assert s == s[..k] + s[k..];
    }
  }

  /** The first line of a well-formed sequence is exactly what `LineLength` measures. */
  lemma LineLengthOfLine(l: string, rest: string)
    requires IsLine(l, rest == [])
    ensures LineLength(l + rest) == |l|
  {
    assert (l + rest)[..|l|] == l;
  }

  /** Re-splitting a well-formed sequence of lines gives it back. */
  lemma {:induction false} LinesOfConcat(ls: seq<string>)
    requires WellFormedLines(ls)
    ensures Lines(Concat(ls)) == ls
  {
    if ls != [] {
      var rest := Concat(ls[1..]);
      assert WellFormedLines(ls[1..]) by {
        forall i | 0 <= i < |ls[1..]| ensures IsLine(ls[1..][i], i == |ls[1..]| - 1) {
          assert ls[1..][i] == ls[i + 1];
        }
      }
      LinesOfConcat(ls[1..]);
      assert IsLine(ls[0], 0 == |ls| - 1);
      assert rest == [] ==> |ls| == 1 by {
        if |ls| > 1 { assert ls[1..][0] != []; }
      }
      LineLengthOfLine(ls[0], rest);
      var s := ls[0] + rest;
      assert s[..|ls[0]|] == ls[0];
      assert s[|ls[0]|..] == rest;
    }
  }

  // ---------------------------------------------------------------------------
  // Indentation of the script body
  // ---------------------------------------------------------------------------

  /** Every line with the indentation in front of it: `'    %s' % l` for each `l`. */
  function Indented(ls: seq<string>): seq<string> {
    seq(|ls|, i requires 0 <= i < |ls| => Indentation + ls[i])
  }

  /** The text substituted for `content`: the script's lines, indented and joined. */
  function Content(body: string): string {
    Concat(Indented(Lines(body)))
  }

  /** Removes the indentation from the front of a line that carries it. */
  function Dedent(l: string): string {
    if Indentation <= l then l[|Indentation|..] else l
  }

  /** The inverse of `Content`: split into lines and dedent each one. */
  function Unindent(content: string): string {
    var ls := Lines(content);
    Concat(seq(|ls|, i requires 0 <= i < |ls| => Dedent(ls[i])))
  }

  /** Indenting keeps a sequence of lines well formed: the indentation holds no newline. */
  lemma IndentedWellFormed(ls: seq<string>)
    requires WellFormedLines(ls)
    ensures WellFormedLines(Indented(ls))
  {
    var r := Indented(ls);
    forall i | 0 <= i < |r| ensures IsLine(r[i], i == |r| - 1) {
      assert IsLine(ls[i], i == |ls| - 1);
      forall j | 0 <= j < |r[i]| - 1 ensures r[i][j] != '\n' {
        if j >= |Indentation| {
          assert r[i][j] == ls[i][j - |Indentation|];
        }
      }
    }
  }

  /** The lines of the content are the script's lines, each indented, in order. */
  lemma ContentLines(body: string)
    ensures Lines(Content(body)) == Indented(Lines(body))
  {
    LinesSplit(body);
    IndentedWellFormed(Lines(body));
    LinesOfConcat(Indented(Lines(body)));
  }

  /** Removing the indentation from every line of the content recovers the script body. */
  lemma UnindentContent(body: string)
    ensures Unindent(Content(body)) == body
  {
    var ls := Lines(body);
    ContentLines(body);
    LinesSplit(body);
    var ds := Lines(Content(body));
    assert seq(|ds|, i requires 0 <= i < |ds| => Dedent(ds[i])) == ls by {
      forall i | 0 <= i < |ds| ensures Dedent(ds[i]) == ls[i] {
        assert ds[i] == Indentation + ls[i];
        assert Indentation <= ds[i];
      }
    }
  }

  /** A script of one line becomes that line behind the indentation. */
  lemma SingleLineContent(l: string)
    requires IsLine(l, true)
    ensures Lines(l) == [l]
    ensures Content(l) == Indentation + l
  {
    LineLengthOfLine(l, []);
    assert l + [] == l;
    assert l[..|l|] == l && l[|l|..] == [];
    assert Indented([l]) == [Indentation + l];
    assert Concat([Indentation + l]) == Indentation + l + Concat([]);
  }

  lemma {:induction false} IndentedLength(ls: seq<string>)
    ensures |Concat(Indented(ls))| == |Concat(ls)| + |Indentation| * |ls|
  {
    if ls != [] {
      IndentedLength(ls[1..]);
      assert Indented(ls)[1..] == Indented(ls[1..]);
    }
  }

  /** The content adds four characters per line and is empty exactly when the script is. */
  lemma ContentLength(body: string)
    ensures |Content(body)| == |body| + 4 * |Lines(body)|
    ensures Content(body) == [] <==> body == []
  {
    IndentedLength(Lines(body));
    LinesSplit(body);
  }

  // ---------------------------------------------------------------------------
  // The template
  // ---------------------------------------------------------------------------

  /** The metadata comment and the `setup` block that open every framed test. */
  const Metadata := "\n#metadata\n# {\n#   \"pebble\": true\n# }\n#/metadata\n\nsetup {\n    context bigboard\n}\n\n"
  const UninstallPrologue := "\n    context bigboard\n\n    # Uninstall the app if it exists\n    do macro "
  const InstallPrologue := "\n\n    # (Re)install the app\n    do install_app app.pbw\n    do "
  const BodyPrologue := "\n    do wait 2\n\n    do macro constrain_execution\n\n"
  const Closing := "\n}\n"

  /** The statements that open the test block: the opening, the uninstall, the install and the launch. */
  function TestLabel(testName: string): string { "test " + testName + " {" }
  function UninstallStatement(uuid: string): string { "remove_app_if_installed \"" + uuid + "\"" }
  function LaunchStatement(appName: string): string { "launch_app \"" + appName + "\"" }

  /** Everything of the template that comes before the content, with the three names substituted. */
  function Header(testName: string, appName: string, uuid: string): string {
    Metadata + TestLabel(testName) + UninstallPrologue + UninstallStatement(uuid)
      + InstallPrologue + LaunchStatement(appName) + BodyPrologue
  }

  /** `frame_test_file(test_file, test_name, app_name, uuid)` for a script whose text is `body`. */
  function FrameTestFile(body: string, testName: string, appName: string, uuid: string): string {
    Header(testName, appName, uuid) + Content(body) + Closing
  }

  /** The script body a framed text was made from, when the text has the shape of one. */
  function Unframe(framed: string, testName: string, appName: string, uuid: string): Option<string> {
    var header := Header(testName, appName, uuid);
    if |header| + |Closing| <= |framed| && header <= framed && framed[|framed| - |Closing|..] == Closing
    then Some(Unindent(framed[|header|..|framed| - |Closing|]))
    else None
  }

  /** `t` occurs in `s` as a contiguous piece. */
  predicate Contains(s: string, t: string) {
    exists i :: 0 <= i <= |s| && t <= s[i..]
  }

  lemma ContainsSelf(t: string)
    ensures Contains(t, t)
  {
    assert t <= t[0..];
  }

  lemma ContainsAppend(s: string, v: string, t: string)
    requires Contains(s, t)
    ensures Contains(s + v, t)
  {
    var i :| 0 <= i <= |s| && t <= s[i..];
    assert (s + v)[i..][..|t|] == s[i..][..|t|];
  }

  lemma ContainsPrepend(u: string, s: string, t: string)
    requires Contains(s, t)
    ensures Contains(u + s, t)
  {
    var i :| 0 <= i <= |s| && t <= s[i..];
    assert (u + s)[|u| + i..] == s[i..];
  }

  /** `t` still occurs once `a`, `b` and `c` are appended. */
  lemma ContainsAppend3(s: string, a: string, b: string, c: string, t: string)
    requires Contains(s, t)
    ensures Contains(s + a + b + c, t)
  {
    ContainsAppend(s, a, t);
    ContainsAppend(s + a, b, t);
    ContainsAppend(s + a + b, c, t);
  }

  /** `t` occurs in `s + t + a + b + c`. */
  lemma ContainsPiece(s: string, t: string, a: string, b: string, c: string)
    ensures Contains(s + t + a + b + c, t)
  {
    ContainsSelf(t);
    ContainsPrepend(s, t, t);
    ContainsAppend3(s + t, a, b, c, t);
  }

  /** Where the pieces of a nine-part concatenation sit in it. */
  lemma TemplatePieces(m: string, tl: string, up: string, us: string, ip: string, ls: string, bp: string, c: string, cl: string)
    ensures var x := m + tl + up + us + ip + ls + bp + c + cl;
      m <= x && Contains(x, tl) && Contains(x, us) && Contains(x, ls) && Contains(x, c) && x[|x| - |cl|..] == cl
  {
    var x := m + tl + up + us + ip + ls + bp + c + cl;
    ContainsPiece(m, tl, up, us, ip);
    ContainsAppend3(m + tl + up + us + ip, ls, bp, c, tl);
    ContainsAppend(m + tl + up + us + ip + ls + bp + c, cl, tl);
    ContainsPiece(m + tl + up, us, ip, ls, bp);
    ContainsAppend(m + tl + up + us + ip + ls + bp, c, us);
    ContainsAppend(m + tl + up + us + ip + ls + bp + c, cl, us);
    ContainsPiece(m + tl + up + us + ip, ls, bp, c, cl);
    ContainsSelf(c);
    ContainsPrepend(m + tl + up + us + ip + ls + bp, c, c);
    ContainsAppend(m + tl + up + us + ip + ls + bp + c, cl, c);
    assert x[..|m|] == m;
  }

  /**
   * The framed text holds the substituted statements and the indented script
   * verbatim, opens with the metadata and ends by closing the block.
   */
  lemma FrameLiterals(body: string, testName: string, appName: string, uuid: string)
    ensures var framed := FrameTestFile(body, testName, appName, uuid);
      Metadata <= framed &&
      Contains(framed, "test " + testName + " {") &&
      Contains(framed, "remove_app_if_installed \"" + uuid + "\"") &&
      Contains(framed, "launch_app \"" + appName + "\"") &&
      Contains(framed, Content(body)) &&
      framed[|framed| - |Closing|..] == Closing
  {
    TemplatePieces(Metadata, TestLabel(testName), UninstallPrologue, UninstallStatement(uuid),
      InstallPrologue, LaunchStatement(appName), BodyPrologue, Content(body), Closing);
  }

  /** The framed text is as long as the fixed template plus the substituted names and the indented script. */
  lemma FrameLength(body: string, testName: string, appName: string, uuid: string)
    ensures |FrameTestFile(body, testName, appName, uuid)|
      == 316 + |testName| + |appName| + |uuid| + |body| + 4 * |Lines(body)|
  {
    ContentLength(body);
  }

  /** The script body can be read back from the framed text. */
  lemma UnframeFrame(body: string, testName: string, appName: string, uuid: string)
    ensures Unframe(FrameTestFile(body, testName, appName, uuid), testName, appName, uuid) == Some(body)
  {
    var header := Header(testName, appName, uuid);
    var framed := FrameTestFile(body, testName, appName, uuid);
    assert framed[|header|..|framed| - |Closing|] == Content(body);
    UnindentContent(body);
  }

  /** With the names fixed, different scripts give different framed texts. */
  lemma FrameInjective(body1: string, body2: string, testName: string, appName: string, uuid: string)
    requires FrameTestFile(body1, testName, appName, uuid) == FrameTestFile(body2, testName, appName, uuid)
    ensures body1 == body2
  {
    UnframeFrame(body1, testName, appName, uuid);
    UnframeFrame(body2, testName, appName, uuid);
  }
}
