/** Snapshot naming: the base name an approver derives from the test's file,
    method and test case, and `ExplicitNamer` with its scenario suffix.
 */
module Naming {
  import opened Base
  import opened Text

  /** `ExplicitNamer`: an immutable pair of the directory the snapshot lives
      in and the snapshot's name. */
  datatype Namer = Namer(sourcePath: string, name: string)

  const ScenarioInfix: string := ".ForScenario."

  /** The characters a scenario title may not carry into a snapshot name. */
  predicate IsUnsafe(c: char) {
    c == ' ' || c == '\\' || c == '/'
  }

  /** `AdjustScenarioName`: spaces, back slashes and slashes become `_`. */
  function AdjustScenarioName(scenario: string): (r: string)
    ensures |r| == |scenario|
    ensures forall i :: 0 <= i < |r| ==> r[i] == (if IsUnsafe(scenario[i]) then '_' else scenario[i])
    ensures forall i :: 0 <= i < |r| ==> !IsUnsafe(r[i])
  {
    ReplaceChar(ReplaceChar(ReplaceChar(scenario, ' ', '_'), '\\', '_'), '/', '_')
  }

  /** `ForScenario`: a new namer in the same directory whose name is the
      receiver's name, the scenario infix and the adjusted scenario title. */
  function ForScenario(namer: Namer, scenario: string): (r: Namer)
    ensures r.sourcePath == namer.sourcePath
    ensures |r.name| == |namer.name| + |ScenarioInfix| + |scenario|
    ensures r.name[..|namer.name|] == namer.name
    ensures r.name[|namer.name|..|namer.name| + |ScenarioInfix|] == ScenarioInfix
    ensures r.name[|namer.name| + |ScenarioInfix|..] == AdjustScenarioName(scenario)
  {
    Namer(namer.sourcePath, namer.name + ScenarioInfix + AdjustScenarioName(scenario))
  }

  /** Adjusting an adjusted title changes nothing. */
  lemma AdjustIdempotent(scenario: string)
    ensures AdjustScenarioName(AdjustScenarioName(scenario)) == AdjustScenarioName(scenario)
  {
  }

  /** Two scenarios of one namer give the same snapshot name exactly when their
      adjusted titles agree. */
  lemma ScenarioNamesCollide(namer: Namer, s1: string, s2: string)
    ensures ForScenario(namer, s1) == ForScenario(namer, s2)
        <==> AdjustScenarioName(s1) == AdjustScenarioName(s2)
  {
    var r1, r2 := ForScenario(namer, s1), ForScenario(namer, s2);
    if r1 == r2 {
      assert r1.name[|namer.name| + |ScenarioInfix|..] == r2.name[|namer.name| + |ScenarioInfix|..];
    }
  }

  /** A scenario name is never the name it extends. */
  lemma ScenarioNameDiffersFromBase(namer: Namer, scenario: string)
    ensures ForScenario(namer, scenario).name != namer.name
  {
  }

  /** "a b" and "a_b" name the same snapshot. */
  lemma ScenarioCollisionExample(namer: Namer)
    ensures ForScenario(namer, "a b") == ForScenario(namer, "a_b")
  {
    var r1, r2 := AdjustScenarioName("a b"), AdjustScenarioName("a_b");
    assert r1[0] == 'a' && r1[1] == '_' && r1[2] == 'b';
    assert r2[0] == 'a' && r2[1] == '_' && r2[2] == 'b';
    assert r1 == r2;
  }

  /** A space, a slash and a back slash each become `_`; "a.b" is kept. */
  lemma AdjustExample()
    ensures AdjustScenarioName(" /\\") == "___"
    ensures AdjustScenarioName("a.b") == "a.b"
  {
    var r := AdjustScenarioName(" /\\");
    assert r[0] == '_' && r[1] == '_' && r[2] == '_';
    var q := AdjustScenarioName("a.b");
    assert q[0] == 'a' && q[1] == '.' && q[2] == 'b';
  }

  /** The base name of an approver: `{class}.{method}`, followed by `.{testCase}`
      unless the test case is absent or blank. */
  function BaseName(className: string, testMethod: string, testCase: Option<string>): (r: string)
    ensures testCase.None? || IsBlank(testCase.value) ==> r == className + "." + testMethod
    ensures testCase.Some? && !IsBlank(testCase.value) ==> r == className + "." + testMethod + "." + testCase.value
  {
    if testCase.None? || IsBlank(testCase.value) then className + "." + testMethod
    else className + "." + testMethod + "." + testCase.value
  }

  /** A test case extends the name the test method has without one, so two test
      cases of one method have distinct names exactly when the cases differ. */
  lemma TestCaseExtendsBaseName(className: string, testMethod: string, c1: string, c2: string)
    requires !IsBlank(c1) && !IsBlank(c2)
    ensures BaseName(className, testMethod, Some(c1)) == BaseName(className, testMethod, None) + "." + c1
    ensures BaseName(className, testMethod, Some(c1)) == BaseName(className, testMethod, Some(c2)) <==> c1 == c2
  {
    var prefix := className + "." + testMethod + ".";
    var n1, n2 := BaseName(className, testMethod, Some(c1)), BaseName(className, testMethod, Some(c2));
    assert n1 == prefix + c1 && n2 == prefix + c2;
    if n1 == n2 {
      assert n1[|prefix|..] == c1 && n2[|prefix|..] == c2;
    }
  }

  predicate IsDirectorySeparator(c: char) {
    c == '/' || c == '\\'
  }

  /** Index of the last character satisfying `IsDirectorySeparator`, if any. */
  function LastSeparator(path: string): (r: Option<nat>)
    ensures r.Some? ==> r.value < |path| && IsDirectorySeparator(path[r.value])
    ensures r.Some? ==> forall i :: r.value < i < |path| ==> !IsDirectorySeparator(path[i])
    ensures r.None? ==> forall i :: 0 <= i < |path| ==> !IsDirectorySeparator(path[i])
  {
    if path == [] then None
    else if IsDirectorySeparator(path[|path| - 1]) then Some(|path| - 1)
    else LastSeparator(path[..|path| - 1])
  }

  /** Index of the last `.`, if any. */
  function LastDot(name: string): (r: Option<nat>)
    ensures r.Some? ==> r.value < |name| && name[r.value] == '.'
    ensures r.Some? ==> forall i :: r.value < i < |name| ==> name[i] != '.'
    ensures r.None? ==> '.' !in name
  {
    if name == [] then None
    else if name[|name| - 1] == '.' then Some(|name| - 1)
    else LastDot(name[..|name| - 1])
  }

  /** `Path.GetFileName`: the text after the last directory separator, or
      the whole path when there is none. */
  function FileName(path: string): (r: string)
    ensures |r| <= |path| && r == path[|path| - |r|..]
    ensures forall i :: 0 <= i < |r| ==> !IsDirectorySeparator(r[i])
    ensures |r| < |path| ==> IsDirectorySeparator(path[|path| - |r| - 1])
  {
    match LastSeparator(path) case Some(k) => path[k + 1..] case None => path
  }

  /** `Path.GetFileNameWithoutExtension`: the file name up to its last dot,
      or the whole file name when it has no dot. */
  function FileNameWithoutExtension(path: string): (r: string)
    ensures |r| <= |FileName(path)| && r == FileName(path)[..|r|]
    ensures || (|r| == |FileName(path)| && '.' !in FileName(path))
            || (|r| < |FileName(path)| && FileName(path)[|r|] == '.' && '.' !in FileName(path)[|r| + 1..])
    ensures forall i :: 0 <= i < |r| ==> !IsDirectorySeparator(r[i])
  {
    var file := FileName(path);
    match LastDot(file) case Some(d) => file[..d] case None => file
  }

  /** `Path.GetDirectoryName`: the text before the last directory separator,
      or the empty string when there is none. */
  function DirectoryName(path: string): (r: string)
    ensures |r| <= |path| && r == path[..|r|]
    ensures (exists i :: 0 <= i < |path| && IsDirectorySeparator(path[i])) ==>
      && |r| < |path| && IsDirectorySeparator(path[|r|])
      && forall i :: |r| < i < |path| ==> !IsDirectorySeparator(path[i])
    ensures (forall i :: 0 <= i < |path| ==> !IsDirectorySeparator(path[i])) ==> r == ""
  {
    match LastSeparator(path) case Some(k) => path[..k] case None => ""
  }

  /** The namer an approver builds in its constructor. */
  function ApproverNamer(testFile: string, testMethod: string, testCase: Option<string>): (r: Namer)
    ensures r.sourcePath == DirectoryName(testFile)
    ensures r.name == BaseName(FileNameWithoutExtension(testFile), testMethod, testCase)
  {
    Namer(DirectoryName(testFile), BaseName(FileNameWithoutExtension(testFile), testMethod, testCase))
  }

  /** The file "/t/A.cs" lies in "/t", and its name without extension is "A". */
  lemma PathExample()
    ensures DirectoryName("/t/A.cs") == "/t"
    ensures FileNameWithoutExtension("/t/A.cs") == "A"
  {
    var path := "/t/A.cs";
    assert IsDirectorySeparator(path[2]);
    assert !IsDirectorySeparator(path[3]) && !IsDirectorySeparator(path[4]);
    assert !IsDirectorySeparator(path[5]) && !IsDirectorySeparator(path[6]);
    assert LastSeparator(path) == Some(2);
    var file := path[3..];
    assert FileName(path) == file == "A.cs";
    assert file[1] == '.' && file[2] != '.' && file[3] != '.';
    assert LastDot(file) == Some(1);
    assert file[..1] == "A";
  }

  /** A test file "/t/A.cs" and method "M" give the name "A.M" in "/t"; a
      blank test case gives the same, and the test case "B" gives "A.M.B". */
  lemma ApproverNamerExample()
    ensures ApproverNamer("/t/A.cs", "M", None) == Namer("/t", "A.M")
    ensures ApproverNamer("/t/A.cs", "M", Some(" ")).name == "A.M"
    ensures ApproverNamer("/t/A.cs", "M", Some("B")).name == "A.M.B"
  {
    PathExample();
    assert IsBlank(" ");
    assert !IsBlank("B") by { assert !IsWhiteSpace("B"[0]); }
  }
}
