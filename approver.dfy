/** `ExplicitApprover`: derives the snapshot name from the test, refuses a
    second verification under a name it has already verified, picks the
    reporter, composes the scrubbers and routes JSON, objects and JSON diffs
    to a text verification.

    The comparison with the stored snapshot (`Approvals.Verify` with a file
    approver) is not modelled: a verification ends in the `Verification`
    record handed to it. The static defaults are parameters, and so are the
    JSON library, the diff engine and the object serializer.
 */
module Approving {
  import opened Base
  import opened Naming
  import opened Composition
  import opened JsonTree
  import opened JsonPathScrubbing
  import SortedDiffFormatting
  import opened Reporters

  /** The JSON library: parser, JSONPath engine and printer. */
  datatype JsonLibrary = JsonLibrary(parse: Parser, select: Selector, render: Printer)

  /** `JsonDiffPatch.Diff`: `None` when the two trees are equal. */
  type Differ = (Json, Json) -> Option<Json>

  /** `IJsonDiffFormatter` implementations. */
  datatype DiffFormatter = DefaultFormatter | SortedFormatter | CustomFormatter(format: Option<Json> -> string)

  /** `IJsonDiffFormatter.Format`. */
  function FormatDiff(formatter: DiffFormatter, diff: Option<Json>, render: Printer): string {
    match formatter
    case DefaultFormatter => SortedDiffFormatting.DefaultFormat(diff, render)
    case SortedFormatter => SortedDiffFormatting.Format(diff, render)
    case CustomFormatter(format) => format(diff)
  }

  /** What `Approvals.Verify` is called with: the snapshot's namer, the file
      extension, the scrubbed text and the reporter for a mismatch. */
  datatype Verification = Verification(namer: Namer, extension: string, text: string, reporter: Reporter)

  /** `JsonPathScrubber` over the ignored paths, as a scrubber. */
  function JsonScrubber(ignoredPaths: seq<string>, lib: JsonLibrary): Scrubber {
    (s: string) => Scrubbed(s, ignoredPaths, lib.parse, lib.select, lib.render)
  }

  /** `InlineScrubber`: the caller's function, which cannot fail. */
  function InlineScrubber(f: string -> string): Scrubber {
    (s: string) => Ok(f(s))
  }

  /** The per-call scrubber first, then the static one (`ComposedScrubber(scrubber, Scrubber)`). */
  function ScrubText(text: string, scrubber: Option<Scrubber>, staticScrubber: Option<Scrubber>): Result<string> {
    Compose([scrubber, staticScrubber], text)
  }

  /** The result of a text verification: a name already verified fails
      before anything else; otherwise scrubbing may fail, and if it does not,
      the scrubbed text is verified under the name. */
  function TextOutcome(verified: set<string>, namer: Namer, text: string, extension: string,
                       scrubber: Option<Scrubber>, staticScrubber: Option<Scrubber>, reporter: Reporter): Result<Verification> {
    if namer.name in verified then Err(SnapshotOverridden(namer.name))
    else match ScrubText(text, scrubber, staticScrubber)
      case Err(e) => Err(e)
      case Ok(t) => Ok(Verification(namer, extension, t, reporter))
  }

  /** A JSON payload is verified as text with the extension "json", scrubbed
      by the ignored paths. */
  function JsonOutcome(verified: set<string>, namer: Namer, payload: string, ignoredPaths: seq<string>,
                       lib: JsonLibrary, staticScrubber: Option<Scrubber>, reporter: Reporter): Result<Verification> {
    TextOutcome(verified, namer, payload, "json", Some(JsonScrubber(ignoredPaths, lib)), staticScrubber, reporter)
  }

  /** The text a JSON diff route verifies: the formatted diff of the two
      parsed payloads; `None` when either payload does not parse. */
  function DiffPayload(before: string, after: string, lib: JsonLibrary, diff: Differ, formatter: DiffFormatter): Option<string> {
    match lib.parse(before)
    case None => None
    case Some(b) =>
      match lib.parse(after)
      case None => None
      case Some(a) => Some(FormatDiff(formatter, diff(b, a), lib.render))
  }

  /** The reporter an approver settles on at construction. */
  function ReporterFor(useAutoApprover: Option<bool>, failureReporter: Option<Reporter>, useAutoApproverDefault: bool): Reporter {
    if useAutoApprover.GetOr(useAutoApproverDefault) then AutoApprover else failureReporter.GetOr(DefaultChain)
  }

  /** The auto-approver is chosen exactly when the flag says so, or the flag is
      absent and the static default says so; otherwise the given reporter, or
      the default chain when none is given. */
  lemma ReporterChoice(useAutoApprover: Option<bool>, failureReporter: Option<Reporter>, useAutoApproverDefault: bool)
    requires failureReporter != Some(AutoApprover)
    ensures ReporterFor(useAutoApprover, failureReporter, useAutoApproverDefault) == AutoApprover
        <==> useAutoApprover == Some(true) || (useAutoApprover.None? && useAutoApproverDefault)
    ensures ReporterFor(useAutoApprover, failureReporter, useAutoApproverDefault) != AutoApprover ==>
        ReporterFor(useAutoApprover, failureReporter, useAutoApproverDefault) == failureReporter.GetOr(DefaultChain)
  {
  }

  /** The static scrubber runs on the per-call scrubber's output, and is
      skipped along with it when the per-call one fails; absent scrubbers
      are skipped. */
  lemma {:induction false} StaticScrubberRunsLast(text: string, scrubber: Option<Scrubber>, staticScrubber: Option<Scrubber>)
    ensures scrubber.Some? && staticScrubber.Some? ==>
      ScrubText(text, scrubber, staticScrubber)
        == match scrubber.value(text)
           case Err(e) => Err(e)
           case Ok(t) => staticScrubber.value(t)
    ensures scrubber.Some? && staticScrubber.None? ==> ScrubText(text, scrubber, staticScrubber) == scrubber.value(text)
    ensures scrubber.None? && staticScrubber.Some? ==> ScrubText(text, scrubber, staticScrubber) == staticScrubber.value(text)
    ensures scrubber.None? && staticScrubber.None? ==> ScrubText(text, scrubber, staticScrubber) == Ok(text)
  {
    var l: seq<Option<Scrubber>> := [scrubber, staticScrubber];
    assert l[1..] == [staticScrubber];
    assert [staticScrubber][1..] == [];
    if scrubber.Some? && scrubber.value(text).Ok? && staticScrubber.Some? {
      SingleIsItself(staticScrubber.value, scrubber.value(text).value);
    }
    if scrubber.None? && staticScrubber.Some? {
      SingleIsItself(staticScrubber.value, text);
    }
    if staticScrubber.None? {
      var v := if scrubber.Some? then scrubber.value(text) else Ok(text);
      if v.Ok? {
        assert Compose(l[1..], v.value) == Compose([], v.value);
      }
    }
  }

  /** A name already verified fails whatever the text and however scrubbing
      would go; under a fresh name the outcome is the scrubbed text. */
  lemma DuplicateFailsFirst(verified: set<string>, namer: Namer, text: string, extension: string,
                            scrubber: Option<Scrubber>, staticScrubber: Option<Scrubber>, reporter: Reporter)
    ensures namer.name in verified ==>
      TextOutcome(verified, namer, text, extension, scrubber, staticScrubber, reporter) == Err(SnapshotOverridden(namer.name))
    ensures namer.name !in verified && ScrubText(text, scrubber, staticScrubber).Ok? ==>
      TextOutcome(verified, namer, text, extension, scrubber, staticScrubber, reporter)
        == Ok(Verification(namer, extension, ScrubText(text, scrubber, staticScrubber).value, reporter))
  {
  }

  /** The JSON routes scrub with the ignored paths on top of the static
      scrubber, and a payload that does not parse fails with the parser's error. */
  lemma JsonOutcomeScrubsPaths(verified: set<string>, namer: Namer, payload: string, ignoredPaths: seq<string>,
                               lib: JsonLibrary, reporter: Reporter)
    requires namer.name !in verified
    ensures JsonOutcome(verified, namer, payload, ignoredPaths, lib, None, reporter)
      == match Scrubbed(payload, ignoredPaths, lib.parse, lib.select, lib.render)
         case Err(e) => Err(e)
         case Ok(t) => Ok(Verification(namer, "json", t, reporter))
  {
    StaticScrubberRunsLast(payload, Some(JsonScrubber(ignoredPaths, lib)), None);
  }

  /** `ExplicitApprover`: the namer, the reporter and the diff formatter are
      fixed at construction; the set of names already verified grows. */
  class ExplicitApprover {
    const namer: Namer
    const reporter: Reporter
    const jsonDiffFormatter: DiffFormatter
    /** `_snapshotTracker`. */
    var snapshotTracker: set<string>

    /** `useAutoApproverDefault` is the static `UseAutoApprover` at the time of
        construction. */
    constructor (currentTestFile: string, currentTestMethod: string, useAutoApprover: Option<bool>,
                 failureReporter: Option<Reporter>, jsonDiffFormatter: Option<DiffFormatter>,
                 testCase: Option<string>, useAutoApproverDefault: bool)
      ensures namer == ApproverNamer(currentTestFile, currentTestMethod, testCase)
      ensures reporter == ReporterFor(useAutoApprover, failureReporter, useAutoApproverDefault)
      ensures this.jsonDiffFormatter == jsonDiffFormatter.GetOr(DefaultFormatter)
      ensures snapshotTracker == {}
    {
      this.jsonDiffFormatter := jsonDiffFormatter.GetOr(DefaultFormatter);
      var chosen := failureReporter.GetOr(DefaultChain);
      this.reporter := if useAutoApprover.GetOr(useAutoApproverDefault) then AutoApprover else chosen;
      var className := FileNameWithoutExtension(currentTestFile);
      var directory := DirectoryName(currentTestFile);
      this.namer := Namer(directory, BaseName(className, currentTestMethod, testCase));
      snapshotTracker := {};
    }

    /** `EnsureSnapshotNotDuplicated`: records the name, and fails if it was
        already there. */
    method EnsureSnapshotNotDuplicated(n: Namer) returns (r: Result<()>)
      modifies this
      ensures snapshotTracker == old(snapshotTracker) + {n.name}
      ensures r.Err? <==> n.name in old(snapshotTracker)
      ensures r.Err? ==> r.error == SnapshotOverridden(n.name)
    {
      if n.name in snapshotTracker {
        return Err(SnapshotOverridden(n.name));
      }
      snapshotTracker := snapshotTracker + {n.name};
      r := Ok(());
    }

    /** `VerifyText(namer, …)`: the name is recorded before scrubbing, so it
        stays recorded when scrubbing fails. */
    method VerifyTextWith(n: Namer, text: string, extension: string,
                          scrubber: Option<Scrubber>, staticScrubber: Option<Scrubber>) returns (r: Result<Verification>)
      modifies this
      ensures snapshotTracker == old(snapshotTracker) + {n.name}
      ensures r == TextOutcome(old(snapshotTracker), n, text, extension, scrubber, staticScrubber, reporter)
    {
      var checked := EnsureSnapshotNotDuplicated(n);
      if checked.Err? {
        return Err(checked.error);
      }
      var textToApprove := Compose([scrubber, staticScrubber], text);
      if textToApprove.Err? {
        return Err(textToApprove.error);
      }
      r := Ok(Verification(n, extension, textToApprove.value, reporter));
    }

    /** `VerifyJson(namer, …)`. */
    method VerifyJsonWith(n: Namer, payload: string, ignoredPaths: seq<string>, lib: JsonLibrary,
                          staticScrubber: Option<Scrubber>) returns (r: Result<Verification>)
      modifies this
      ensures snapshotTracker == old(snapshotTracker) + {n.name}
      ensures r == JsonOutcome(old(snapshotTracker), n, payload, ignoredPaths, lib, staticScrubber, reporter)
    {
      r := VerifyTextWith(n, payload, "json", Some(JsonScrubber(ignoredPaths, lib)), staticScrubber);
    }

    /** `VerifyJsonDiff(namer, …)`: both payloads are parsed before the name is
        checked, so a payload that does not parse records nothing; the
        ignored paths apply to the formatted diff. */
    method VerifyJsonDiffWith(n: Namer, before: string, after: string, ignoredPaths: seq<string>, lib: JsonLibrary,
                              diff: Differ, staticScrubber: Option<Scrubber>) returns (r: Result<Verification>)
      modifies this
      ensures DiffPayload(before, after, lib, diff, jsonDiffFormatter).None? ==>
        r == Err(ParseError) && snapshotTracker == old(snapshotTracker)
      ensures DiffPayload(before, after, lib, diff, jsonDiffFormatter).Some? ==>
        snapshotTracker == old(snapshotTracker) + {n.name}
        && r == JsonOutcome(old(snapshotTracker), n, DiffPayload(before, after, lib, diff, jsonDiffFormatter).value,
                            ignoredPaths, lib, staticScrubber, reporter)
    {
      var jsonBefore := lib.parse(before);
      if jsonBefore.None? {
        return Err(ParseError);
      }
      var jsonAfter := lib.parse(after);
      if jsonAfter.None? {
        return Err(ParseError);
      }
      var d := diff(jsonBefore.value, jsonAfter.value);
      var diffPayload := FormatDiff(jsonDiffFormatter, d, lib.render);
      r := VerifyJsonWith(n, diffPayload, ignoredPaths, lib, staticScrubber);
    }

    /** `VerifyText`: under the approver's own name, with an optional inline scrubber. */
    method VerifyText(text: string, extension: string, scrubber: Option<string -> string>,
                      staticScrubber: Option<Scrubber>) returns (r: Result<Verification>)
      modifies this
      ensures snapshotTracker == old(snapshotTracker) + {namer.name}
      ensures r == TextOutcome(old(snapshotTracker), namer, text, extension,
                               if scrubber.Some? then Some(InlineScrubber(scrubber.value)) else None, staticScrubber, reporter)
    {
      var inline := if scrubber.Some? then Some(InlineScrubber(scrubber.value)) else None;
      r := VerifyTextWith(namer, text, extension, inline, staticScrubber);
    }

    /** `VerifyTextForScenario`: as `VerifyText`, under the scenario's name. */
    method VerifyTextForScenario(scenario: string, text: string, extension: string, scrubber: Option<string -> string>,
                                 staticScrubber: Option<Scrubber>) returns (r: Result<Verification>)
      modifies this
      ensures snapshotTracker == old(snapshotTracker) + {ForScenario(namer, scenario).name}
      ensures r == TextOutcome(old(snapshotTracker), ForScenario(namer, scenario), text, extension,
                               if scrubber.Some? then Some(InlineScrubber(scrubber.value)) else None, staticScrubber, reporter)
    {
      var inline := if scrubber.Some? then Some(InlineScrubber(scrubber.value)) else None;
      r := VerifyTextWith(ForScenario(namer, scenario), text, extension, inline, staticScrubber);
    }

    /** `VerifyJson`. */
    method VerifyJson(payload: string, ignoredPaths: seq<string>, lib: JsonLibrary,
                      staticScrubber: Option<Scrubber>) returns (r: Result<Verification>)
      modifies this
      ensures snapshotTracker == old(snapshotTracker) + {namer.name}
      ensures r == JsonOutcome(old(snapshotTracker), namer, payload, ignoredPaths, lib, staticScrubber, reporter)
    {
      r := VerifyJsonWith(namer, payload, ignoredPaths, lib, staticScrubber);
    }

    /** `VerifyJsonForScenario`. */
    method VerifyJsonForScenario(scenario: string, payload: string, ignoredPaths: seq<string>, lib: JsonLibrary,
                                 staticScrubber: Option<Scrubber>) returns (r: Result<Verification>)
      modifies this
      ensures snapshotTracker == old(snapshotTracker) + {ForScenario(namer, scenario).name}
      ensures r == JsonOutcome(old(snapshotTracker), ForScenario(namer, scenario), payload, ignoredPaths, lib, staticScrubber, reporter)
    {
      r := VerifyJsonWith(ForScenario(namer, scenario), payload, ignoredPaths, lib, staticScrubber);
    }

    /** `VerifyObject`: the serialized object, verified as JSON. */
    method VerifyObject<T>(data: T, serialize: T -> string, ignoredPaths: seq<string>, lib: JsonLibrary,
                           staticScrubber: Option<Scrubber>) returns (r: Result<Verification>)
      modifies this
      ensures snapshotTracker == old(snapshotTracker) + {namer.name}
      ensures r == JsonOutcome(old(snapshotTracker), namer, serialize(data), ignoredPaths, lib, staticScrubber, reporter)
    {
      r := VerifyJsonWith(namer, serialize(data), ignoredPaths, lib, staticScrubber);
    }

    /** `VerifyObjectForScenario`. */
    method VerifyObjectForScenario<T>(scenario: string, data: T, serialize: T -> string, ignoredPaths: seq<string>,
                                      lib: JsonLibrary, staticScrubber: Option<Scrubber>) returns (r: Result<Verification>)
      modifies this
      ensures snapshotTracker == old(snapshotTracker) + {ForScenario(namer, scenario).name}
      ensures r == JsonOutcome(old(snapshotTracker), ForScenario(namer, scenario), serialize(data), ignoredPaths, lib,
                               staticScrubber, reporter)
    {
      r := VerifyJsonWith(ForScenario(namer, scenario), serialize(data), ignoredPaths, lib, staticScrubber);
    }

    /** `VerifyJsonDiff`. */
    method VerifyJsonDiff(before: string, after: string, ignoredPaths: seq<string>, lib: JsonLibrary,
                          diff: Differ, staticScrubber: Option<Scrubber>) returns (r: Result<Verification>)
      modifies this
      ensures DiffPayload(before, after, lib, diff, jsonDiffFormatter).None? ==>
        r == Err(ParseError) && snapshotTracker == old(snapshotTracker)
      ensures DiffPayload(before, after, lib, diff, jsonDiffFormatter).Some? ==>
        snapshotTracker == old(snapshotTracker) + {namer.name}
        && r == JsonOutcome(old(snapshotTracker), namer, DiffPayload(before, after, lib, diff, jsonDiffFormatter).value,
                            ignoredPaths, lib, staticScrubber, reporter)
    {
      r := VerifyJsonDiffWith(namer, before, after, ignoredPaths, lib, diff, staticScrubber);
    }

    /** `VerifyJsonDiffForScenario`. */
    method VerifyJsonDiffForScenario(scenario: string, before: string, after: string, ignoredPaths: seq<string>,
                                     lib: JsonLibrary, diff: Differ, staticScrubber: Option<Scrubber>) returns (r: Result<Verification>)
      modifies this
      ensures DiffPayload(before, after, lib, diff, jsonDiffFormatter).None? ==>
        r == Err(ParseError) && snapshotTracker == old(snapshotTracker)
      ensures DiffPayload(before, after, lib, diff, jsonDiffFormatter).Some? ==>
        snapshotTracker == old(snapshotTracker) + {ForScenario(namer, scenario).name}
        && r == JsonOutcome(old(snapshotTracker), ForScenario(namer, scenario),
                            DiffPayload(before, after, lib, diff, jsonDiffFormatter).value, ignoredPaths, lib, staticScrubber, reporter)
    {
      r := VerifyJsonDiffWith(ForScenario(namer, scenario), before, after, ignoredPaths, lib, diff, staticScrubber);
    }

    /** `VerifyObjectDiff`: the two serialized objects, verified as a JSON diff. */
    method VerifyObjectDiff<T>(dataBefore: T, dataAfter: T, serialize: T -> string, ignoredPaths: seq<string>,
                               lib: JsonLibrary, diff: Differ, staticScrubber: Option<Scrubber>) returns (r: Result<Verification>)
      modifies this
      ensures DiffPayload(serialize(dataBefore), serialize(dataAfter), lib, diff, jsonDiffFormatter).None? ==>
        r == Err(ParseError) && snapshotTracker == old(snapshotTracker)
      ensures DiffPayload(serialize(dataBefore), serialize(dataAfter), lib, diff, jsonDiffFormatter).Some? ==>
        snapshotTracker == old(snapshotTracker) + {namer.name}
        && r == JsonOutcome(old(snapshotTracker), namer,
                            DiffPayload(serialize(dataBefore), serialize(dataAfter), lib, diff, jsonDiffFormatter).value,
                            ignoredPaths, lib, staticScrubber, reporter)
    {
      r := VerifyJsonDiff(serialize(dataBefore), serialize(dataAfter), ignoredPaths, lib, diff, staticScrubber);
    }

    /** `VerifyObjectDiffForScenario`. */
    method VerifyObjectDiffForScenario<T>(scenario: string, dataBefore: T, dataAfter: T, serialize: T -> string,
                                          ignoredPaths: seq<string>, lib: JsonLibrary, diff: Differ,
                                          staticScrubber: Option<Scrubber>) returns (r: Result<Verification>)
      modifies this
      ensures DiffPayload(serialize(dataBefore), serialize(dataAfter), lib, diff, jsonDiffFormatter).None? ==>
        r == Err(ParseError) && snapshotTracker == old(snapshotTracker)
      ensures DiffPayload(serialize(dataBefore), serialize(dataAfter), lib, diff, jsonDiffFormatter).Some? ==>
        snapshotTracker == old(snapshotTracker) + {ForScenario(namer, scenario).name}
        && r == JsonOutcome(old(snapshotTracker), ForScenario(namer, scenario),
                            DiffPayload(serialize(dataBefore), serialize(dataAfter), lib, diff, jsonDiffFormatter).value,
                            ignoredPaths, lib, staticScrubber, reporter)
    {
      r := VerifyJsonDiffForScenario(scenario, serialize(dataBefore), serialize(dataAfter), ignoredPaths, lib, diff, staticScrubber);
    }
  }

  /** Verifying twice under the approver's own name: the second fails as a
      duplicate, whether or not the first succeeded. */
  method SecondVerificationFails(approver: ExplicitApprover, t1: string, t2: string, staticScrubber: Option<Scrubber>)
      returns (second: Result<Verification>)
    modifies approver
    ensures second == Err(SnapshotOverridden(approver.namer.name))
  {
    var first := approver.VerifyText(t1, "txt", None, staticScrubber);
    second := approver.VerifyText(t2, "txt", None, staticScrubber);
  }

  /** Two approvers keep separate sets of names: whether a verification on
      `b` succeeds depends on `b`'s names alone, even when `a` has just
      verified the same name. */
  method ApproversAreIndependent(a: ExplicitApprover, b: ExplicitApprover, text: string)
      returns (first: Result<Verification>, second: Result<Verification>)
    requires a != b
    modifies a, b
    ensures first.Ok? <==> a.namer.name !in old(a.snapshotTracker)
    ensures second.Ok? <==> b.namer.name !in old(b.snapshotTracker)
  {
    StaticScrubberRunsLast(text, None, None);
    first := a.VerifyText(text, "txt", None, None);
    second := b.VerifyText(text, "txt", None, None);
  }

  /** Scenarios whose names stay apart are all verified, and none of them
      records the approver's own name. */
  method ScenariosDoNotCollide(approver: ExplicitApprover, s1: string, s2: string, text: string)
      returns (r1: Result<Verification>, r2: Result<Verification>)
    requires approver.snapshotTracker == {}
    requires AdjustScenarioName(s1) != AdjustScenarioName(s2)
    modifies approver
    ensures r1.Ok? && r2.Ok?
    ensures approver.namer.name !in approver.snapshotTracker
  {
    StaticScrubberRunsLast(text, None, None);
    r1 := approver.VerifyTextForScenario(s1, text, "txt", None, None);
    ScenarioNamesCollide(approver.namer, s1, s2);
    ScenarioNameDiffersFromBase(approver.namer, s1);
    ScenarioNameDiffersFromBase(approver.namer, s2);
    r2 := approver.VerifyTextForScenario(s2, text, "txt", None, None);
  }
}
