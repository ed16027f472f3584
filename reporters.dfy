/** Failure reporters: which reporter an approver falls back to, the
    context-aware reporter that picks a diff tool from the processes running
    the tests, and the build-server decorator that asks once whether it runs
    on a build server.

    Process information, the operating system, environment variables and
    the build-server detector are parameters.
 */
module Reporters {
  import opened Base
  import opened Text

  /** The reporters an approver can be given or builds by default. */
  datatype Reporter =
    | AutoApprover
    | EnhancedInline
    | ContextAware
    | DiffReporter
    | BuildServer(inner: Reporter)
    | FirstWorking(reporters: seq<Reporter>)
    /** A reporter supplied by the caller. */
    | Custom(id: nat)

  /** `DefaultFailureReporterFactory`: the enhanced inline diff on a build
      server, otherwise a diff tool picked from the context, otherwise the
      library's diff reporter. */
  const DefaultChain: Reporter := FirstWorking([BuildServer(EnhancedInline), ContextAware, DiffReporter])

  /** DiffEngine's diff tools that the context-aware reporter can pick. */
  datatype DiffTool = VisualStudioCode | Rider | VisualStudio

  /** `GetPreferredDiffTool`: the tool a process name calls for, compared in
      lower case; the test host and the ReSharper runner count only off
      Windows. */
  function PreferredDiffTool(processName: string, isWindows: bool): Option<DiffTool> {
    var name := ToLower(processName);
    if name == "testhost" && !isWindows then Some(VisualStudioCode)
    else if name == "resharpertestrunner" && !isWindows then Some(Rider)
    else if name == "rider64" then Some(Rider)
    else if name == "devenv" then Some(VisualStudio)
    else if name == "omnisharp" then Some(VisualStudioCode)
    else None
  }

  /** The table of process names, tool by tool. */
  lemma PreferredDiffToolTable(processName: string, isWindows: bool)
    ensures PreferredDiffTool(processName, isWindows) == Some(VisualStudioCode)
        <==> (ToLower(processName) == "testhost" && !isWindows) || ToLower(processName) == "omnisharp"
    ensures PreferredDiffTool(processName, isWindows) == Some(Rider)
        <==> (ToLower(processName) == "resharpertestrunner" && !isWindows) || ToLower(processName) == "rider64"
    ensures PreferredDiffTool(processName, isWindows) == Some(VisualStudio)
        <==> ToLower(processName) == "devenv"
  {
    var name := ToLower(processName);
    assert "testhost" != "omnisharp" && "testhost" != "rider64" && "testhost" != "devenv";
    assert "resharpertestrunner" != "rider64" && "resharpertestrunner" != "devenv";
    assert "resharpertestrunner" != "omnisharp" && "rider64" != "devenv";
    assert "rider64" != "omnisharp" && "devenv" != "omnisharp";
  }

  /** Names that differ only in the case of their letters call for the same tool. */
  lemma PreferredDiffToolIgnoresCase(a: string, b: string, isWindows: bool)
    requires ToLower(a) == ToLower(b)
    ensures PreferredDiffTool(a, isWindows) == PreferredDiffTool(b, isWindows)
  {
  }

  /** "Rider64" is Rider on every system; "testhost" picks nothing on Windows. */
  lemma PreferredDiffToolExample()
    ensures PreferredDiffTool("Rider64", true) == Some(Rider)
    ensures PreferredDiffTool("testhost", true) == None
  {
    RiderInLowerCase();
    TestHostInLowerCase();
  }

  lemma RiderInLowerCase()
    ensures ToLower("Rider64") == "rider64"
  {
    var r := ToLower("Rider64");
    assert r[0] == 'r' && r[1] == 'i' && r[2] == 'd' && r[3] == 'e' && r[4] == 'r' && r[5] == '6' && r[6] == '4';
  }

  lemma TestHostInLowerCase()
    ensures ToLower("testhost") == "testhost"
  {
    var t := ToLower("testhost");
    assert t[0] == 't' && t[1] == 'e' && t[2] == 's' && t[3] == 't';
    assert t[4] == 'h' && t[5] == 'o' && t[6] == 's' && t[7] == 't';
  }

  /** A running process: its name, whether it has exited, and its parent as
      the operating system reports it. */
  datatype Process = Process(name: string, hasExited: bool, parent: Option<Process>)

  /** The parents of `p`, nearest first, up to the first that is missing or
      has exited. */
  function LiveAncestors(p: Process): seq<Process>
    decreases p
  {
    match p.parent
    case None => []
    case Some(q) => if q.hasExited then [] else [q] + LiveAncestors(q)
  }

  /** `EnumerateExecutingProcesses`: the current process, followed on Windows
      by its live ancestors. */
  function ProcessChain(current: Process, isWindows: bool): seq<Process> {
    [current] + (if isWindows then LiveAncestors(current) else [])
  }

  /** Each process after the first is the live parent of the one before it. */
  predicate Linked(c: seq<Process>) {
    forall k :: 0 < k < |c| ==> c[k - 1].parent == Some(c[k]) && !c[k].hasExited
  }

  /** The chain starts at the current process, each later process is the
      live parent of the one before it, and on Windows the chain ends where
      the parent is missing or has exited. */
  lemma {:induction false} ProcessChainLinks(current: Process, isWindows: bool)
    ensures ProcessChain(current, isWindows)[0] == current
    ensures !isWindows ==> ProcessChain(current, isWindows) == [current]
    ensures Linked(ProcessChain(current, isWindows))
    ensures var c := ProcessChain(current, isWindows);
      isWindows ==> c[|c| - 1].parent.None? || c[|c| - 1].parent.value.hasExited
    decreases current
  {
    if isWindows {
      match current.parent
      case None =>
      case Some(q) =>
        if !q.hasExited {
          ProcessChainLinks(q, true);
          assert ProcessChain(current, true) == [current] + ProcessChain(q, true);
        }
    }
  }

  /** The tool of the first process in the chain that calls for one. */
  function FirstTool(chain: seq<Process>, isWindows: bool): Option<DiffTool> {
    if chain == [] then None
    else match PreferredDiffTool(chain[0].name, isWindows)
      case Some(t) => Some(t)
      case None => FirstTool(chain[1..], isWindows)
  }

  /** `FirstTool` is the first match: the tool of some process, with no
      earlier process calling for any tool; or none when no process does. */
  lemma {:induction false} FirstToolIsFirstMatch(chain: seq<Process>, isWindows: bool)
    ensures FirstTool(chain, isWindows).Some? ==>
      exists k :: 0 <= k < |chain| && PreferredDiffTool(chain[k].name, isWindows) == FirstTool(chain, isWindows)
        && forall j :: 0 <= j < k ==> PreferredDiffTool(chain[j].name, isWindows).None?
    ensures FirstTool(chain, isWindows).None? <==>
      forall k :: 0 <= k < |chain| ==> PreferredDiffTool(chain[k].name, isWindows).None?
  {
    if chain != [] {
      FirstToolIsFirstMatch(chain[1..], isWindows);
      if PreferredDiffTool(chain[0].name, isWindows).None? && FirstTool(chain, isWindows).Some? {
        var k :| 0 <= k < |chain[1..]| && PreferredDiffTool(chain[1..][k].name, isWindows) == FirstTool(chain, isWindows)
          && forall j :: 0 <= j < k ==> PreferredDiffTool(chain[1..][j].name, isWindows).None?;
        assert PreferredDiffTool(chain[k + 1].name, isWindows) == FirstTool(chain, isWindows);
      }
    }
  }

  /** The tool the context-aware reporter settles on. */
  function ToolFor(current: Process, isWindows: bool): Option<DiffTool> {
    FirstTool(ProcessChain(current, isWindows), isWindows)
  }

  /** `EnumerateExecutingProcesses`: walks up the parents while they are alive. */
  method EnumerateExecutingProcesses(current: Process, isWindows: bool) returns (chain: seq<Process>)
    ensures chain == ProcessChain(current, isWindows)
  {
    var process := current;
    chain := [process];
    if isWindows {
      while process.parent.Some? && !process.parent.value.hasExited
        invariant chain + LiveAncestors(process) == ProcessChain(current, isWindows)
        decreases process
      {
        var parent := process.parent.value;
        assert LiveAncestors(process) == [parent] + LiveAncestors(parent);
        chain := chain + [parent];
        process := parent;
      }
    }
  }

  /** `FindPreferredTool`: the first process in the chain that calls for a tool. */
  method FindPreferredTool(chain: seq<Process>, isWindows: bool) returns (tool: Option<DiffTool>)
    ensures tool == FirstTool(chain, isWindows)
  {
    var i := 0;
    while i < |chain|
      invariant i <= |chain|
      invariant FirstTool(chain[i..], isWindows) == FirstTool(chain, isWindows)
    {
      assert chain[i..][1..] == chain[i + 1..];
      var preferred := PreferredDiffTool(chain[i].name, isWindows);
      if preferred.Some? {
        return preferred;
      }
      i := i + 1;
    }
    return None;
  }

  /** `IsAutoDetectionEnabled`: the variable `DiffEngine_UseContextAwareReporter`
      is set and reads "true" in lower case. */
  predicate AutoDetectionEnabled(variable: Option<string>) {
    variable.Some? && ToLower(variable.value) == "true"
  }

  /** "TRUE" enables detection; an unset variable does not. */
  lemma AutoDetectionExample()
    ensures AutoDetectionEnabled(Some("TRUE"))
    ensures !AutoDetectionEnabled(None)
  {
    var r := ToLower("TRUE");
    assert r[0] == 't' && r[1] == 'r' && r[2] == 'u' && r[3] == 'e';
    assert r == "true";
  }

  /** `DiffToolReporter.Report`: the tool opened on the two files. */
  datatype Launch = Launch(tool: DiffTool, approved: string, received: string)

  const NoPreferredTool: string := "Unable to find a preferred reported for current used IDE"

  /** `ContextAwareDiffToolReporter`: the preferred tool is looked up the first
      time it is needed and kept. */
  class ContextAwareDiffToolReporter {
    const current: Process
    const isWindows: bool
    /** The `Lazy` value: `None` until it is first needed. */
    var preferredTool: Option<Option<DiffTool>>
    /** How often the lookup has run. */
    ghost var lookups: nat

    ghost predicate Valid()
      reads this
    {
      && (preferredTool.None? <==> lookups == 0)
      && lookups <= 1
      && (preferredTool.Some? ==> preferredTool.value == ToolFor(current, isWindows))
    }

    /** The processes are the ones the lookup will see when it runs. */
    constructor (current: Process, isWindows: bool)
      ensures Valid() && this.current == current && this.isWindows == isWindows
      ensures preferredTool.None?
    {
      this.current := current;
      this.isWindows := isWindows;
      preferredTool := None;
      lookups := 0;
    }

    /** `_preferredReporter.Value`: runs the lookup on first use only. */
    method PreferredTool() returns (tool: Option<DiffTool>)
      requires Valid()
      modifies this
      ensures Valid()
      ensures tool == ToolFor(current, isWindows) && preferredTool.Some?
      ensures old(preferredTool).Some? ==> preferredTool == old(preferredTool) && lookups == old(lookups)
      ensures lookups >= old(lookups)
    {
      if preferredTool.None? {
        var chain := EnumerateExecutingProcesses(current, isWindows);
        var found := FindPreferredTool(chain, isWindows);
        preferredTool := Some(found);
        lookups := lookups + 1;
      }
      tool := preferredTool.value;
    }

    /** `IsWorkingInThisEnvironment`: detection is enabled and a tool was
        found; the lookup does not run when detection is disabled. */
    method IsWorkingInThisEnvironment(forFile: string, variable: Option<string>) returns (working: bool)
      requires Valid()
      modifies this
      ensures Valid()
      ensures working <==> AutoDetectionEnabled(variable) && ToolFor(current, isWindows).Some?
      ensures !AutoDetectionEnabled(variable) ==> preferredTool == old(preferredTool) && lookups == old(lookups)
      ensures AutoDetectionEnabled(variable) ==> preferredTool.Some?
      ensures old(preferredTool).Some? ==> preferredTool == old(preferredTool) && lookups == old(lookups)
      ensures lookups >= old(lookups)
    {
      if !AutoDetectionEnabled(variable) {
        return false;
      }
      var tool := PreferredTool();
      working := tool.Some?;
    }

    /** `Report`: fails when no tool was found, and otherwise opens the tool on
        the same two files. */
    method Report(approved: string, received: string) returns (r: Result<Launch>)
      requires Valid()
      modifies this
      ensures Valid()
      ensures ToolFor(current, isWindows).None? ==> r == Err(InvalidOperation(NoPreferredTool))
      ensures ToolFor(current, isWindows).Some? ==> r == Ok(Launch(ToolFor(current, isWindows).value, approved, received))
      ensures preferredTool.Some? && lookups >= old(lookups)
      ensures old(preferredTool).Some? ==> preferredTool == old(preferredTool) && lookups == old(lookups)
    {
      var tool := PreferredTool();
      if tool.None? {
        return Err(InvalidOperation(NoPreferredTool));
      }
      r := Ok(Launch(tool.value, approved, received));
    }
  }

  /** Two checks of applicability with detection enabled, about different
      files: both answers agree, and the lookup ran once. */
  method LookupRunsOnce(reporter: ContextAwareDiffToolReporter, f1: string, f2: string, variable: Option<string>)
      returns (first: bool, second: bool)
    requires reporter.Valid() && reporter.preferredTool.None? && AutoDetectionEnabled(variable)
    modifies reporter
    ensures first == second && reporter.lookups == 1
  {
    first := reporter.IsWorkingInThisEnvironment(f1, variable);
    second := reporter.IsWorkingInThisEnvironment(f2, variable);
  }

  /** A check of applicability and then a report share the one lookup: the
      report opens a tool exactly when the check said the reporter works. */
  method ReportReusesLookup(reporter: ContextAwareDiffToolReporter, f: string, variable: Option<string>,
                            approved: string, received: string) returns (working: bool, r: Result<Launch>)
    requires reporter.Valid() && reporter.preferredTool.None? && AutoDetectionEnabled(variable)
    modifies reporter
    ensures working <==> r.Ok?
    ensures reporter.preferredTool.Some? && reporter.lookups == 1
  {
    working := reporter.IsWorkingInThisEnvironment(f, variable);
    r := reporter.Report(approved, received);
  }

  /** `Report` of a decorator: the inner reporter called with the same files. */
  datatype Forwarded = Forwarded(reporter: Reporter, approved: string, received: string)

  /** `BuildServerReporter`: runs its inner reporter only on a build server,
      and asks the detector once. */
  class BuildServerReporter {
    const failureReporter: Reporter
    /** `_isBuildServerEnvironment`: `None` until first asked. */
    var isBuildServerEnvironment: Option<bool>
    /** How often the detector has been consulted. */
    ghost var detections: nat

    ghost predicate Valid()
      reads this
    {
      (isBuildServerEnvironment.None? <==> detections == 0) && detections <= 1
    }

    constructor (failureReporter: Reporter)
      ensures Valid() && this.failureReporter == failureReporter
      ensures isBuildServerEnvironment.None?
    {
      this.failureReporter := failureReporter;
      isBuildServerEnvironment := None;
      detections := 0;
    }

    /** `Report`: forwards both files, unchanged, to the inner reporter. */
    method Report(approved: string, received: string) returns (call: Forwarded)
      ensures call == Forwarded(failureReporter, approved, received)
    {
      call := Forwarded(failureReporter, approved, received);
    }

    /** `IsWorkingInThisEnvironment`: the detector's answer for the first file
        asked about, stored and returned from then on; the inner reporter is
        never consulted. */
    method IsWorkingInThisEnvironment(forFile: string, detect: string -> bool) returns (working: bool)
      requires Valid()
      modifies this
      ensures Valid()
      ensures old(isBuildServerEnvironment).Some? ==>
        working == old(isBuildServerEnvironment).value
        && isBuildServerEnvironment == old(isBuildServerEnvironment) && detections == old(detections)
      ensures old(isBuildServerEnvironment).None? ==>
        working == detect(forFile) && isBuildServerEnvironment == Some(working)
    {
      if isBuildServerEnvironment.None? {
        isBuildServerEnvironment := Some(detect(forFile));
        detections := detections + 1;
      }
      working := isBuildServerEnvironment.value;
    }
  }

  /** Two questions about different files, answered by different detectors:
      the second answer is the first one, and the detector ran once. */
  method DetectorAskedOnce(reporter: BuildServerReporter, f1: string, f2: string,
                           d1: string -> bool, d2: string -> bool) returns (first: bool, second: bool)
    requires reporter.Valid() && reporter.isBuildServerEnvironment.None?
    modifies reporter
    ensures first == d1(f1) && second == first && reporter.detections == 1
  {
    first := reporter.IsWorkingInThisEnvironment(f1, d1);
    second := reporter.IsWorkingInThisEnvironment(f2, d2);
  }
}
