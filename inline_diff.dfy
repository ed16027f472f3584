/** `EnhancedInlineDiffReporter`: renders the changed lines of a line diff as
    blocks, each opened by a separator and the line it starts at, and reports
    the difference by failing with `ContentDifferentThanExpectedException`.

    The line diff itself (DiffPlex's inline diff builder) is an input: a
    sequence of pieces, each with its change type, its text (line ending
    included) and, when the builder gives one, its line position.
 */
module InlineDiff {
  import opened Base
  import opened Text

  /** DiffPlex's `ChangeType`. */
  datatype ChangeType = Unchanged | Deleted | Inserted | Imaginary | Modified

  /** DiffPlex's `DiffPiece`. */
  datatype DiffPiece = DiffPiece(kind: ChangeType, text: string, position: Option<nat>)

  const Separator: string := "==========================="

  /** `GetLinePrefix`: two characters that mark the kind of change. */
  function LinePrefix(piece: DiffPiece): (r: string)
    ensures |r| == 2 && r[1] == ' '
  {
    match piece.kind
    case Inserted => "+ "
    case Deleted => "- "
    case Modified => "M "
    case Imaginary => "I "
    case _ => "  "
  }

  /** Every kind of change has its own prefix. */
  lemma PrefixesTellKindsApart(p: DiffPiece, q: DiffPiece)
    ensures LinePrefix(p) == LinePrefix(q) <==> p.kind == q.kind
  {
    if LinePrefix(p) == LinePrefix(q) {
      assert LinePrefix(p)[0] == LinePrefix(q)[0];
    }
  }

  const SpaceMark: char := '\U{00B7}'
  const TabMark: char := '\U{2192}'
  const CrMark: char := '\U{240D}'
  const LfMark: char := '\U{240A}'
  const CrLfVisualization: string := [CrMark, LfMark] + NewLine
  const LfVisualization: string := [LfMark] + NewLine
  const CrVisualization: string := [CrMark] + NewLine

  /** Spaces and tabs replaced by visible marks. */
  function MarkSpaces(text: string): (r: string)
    ensures |r| == |text|
    ensures forall i :: 0 <= i < |r| ==>
      r[i] == (if text[i] == ' ' then SpaceMark else if text[i] == '\t' then TabMark else text[i])
  {
    ReplaceChar(ReplaceChar(text, ' ', SpaceMark), '\t', TabMark)
  }

  /** `MakeWhitespacesVisible`: spaces and tabs become marks, and the line
      endings of the first kind the text ends with become marks followed by
      a new line. No space or tab survives. */
  function MakeWhitespacesVisible(text: string): (r: string)
    ensures ' ' !in r && '\t' !in r
  {
    var middle := MarkSpaces(text);
    assert ' ' !in middle && '\t' !in middle;
    if EndsWith(middle, "\r\n") then
      ReplaceAllAvoids(middle, "\r\n", CrLfVisualization, ' ');
      ReplaceAllAvoids(middle, "\r\n", CrLfVisualization, '\t');
      ReplaceAll(middle, "\r\n", CrLfVisualization)
    else if EndsWith(middle, "\n") then
      ReplaceAllAvoids(middle, "\n", LfVisualization, ' ');
      ReplaceAllAvoids(middle, "\n", LfVisualization, '\t');
      ReplaceAll(middle, "\n", LfVisualization)
    else if EndsWith(middle, "\r") then
      ReplaceAllAvoids(middle, "\r", CrVisualization, ' ');
      ReplaceAllAvoids(middle, "\r", CrVisualization, '\t');
      ReplaceAll(middle, "\r", CrVisualization)
    else middle
  }

  /** Marking spaces keeps every line-ending character where it was, so the
      marked text ends as the text does. */
  lemma MarkSpacesKeepsEnding(text: string, suffix: string)
    requires forall i :: 0 <= i < |suffix| ==> suffix[i] == '\r' || suffix[i] == '\n'
    ensures EndsWith(MarkSpaces(text), suffix) <==> EndsWith(text, suffix)
  {
    var m := MarkSpaces(text);
    if |suffix| <= |text| {
      var off := |text| - |suffix|;
      if m[off..] == suffix {
        forall i | 0 <= i < |suffix| ensures text[off + i] == suffix[i] {
          assert m[off + i] == suffix[i];
        }
        assert text[off..] == suffix;
      }
      if text[off..] == suffix {
        forall i | 0 <= i < |suffix| ensures m[off + i] == suffix[i] {
          assert text[off + i] == suffix[i];
        }
      }
    }
  }

  /** A text ending in `pat` keeps its ending as the visualization of `pat`. */
  lemma EndingBecomes(middle: string, pat: string, rep: string)
    requires |pat| > 0 && Borderless(pat) && EndsWith(middle, pat)
    ensures EndsWith(ReplaceAll(middle, pat, rep), rep)
  {
    var a := middle[..|middle| - |pat|];
    assert middle == a + pat;
    ReplaceAllOfTerminated(a, pat, rep);
    var r := ReplaceAll(a, pat, rep) + rep;
    assert r[|r| - |rep|..] == rep;
  }

  /** The text's line ending is shown: "\r\n" as both marks, otherwise "\n"
      or "\r" as its mark, each followed by a new line; a text with neither
      ending keeps its line breaks and changes only spaces and tabs. Every
      occurrence of the ending's kind is shown, not only the last: no
      "\r\n" pair is left, every line feed follows its mark, or no carriage
      return is left. */
  lemma LineEndingShown(text: string)
    ensures EndsWith(text, "\r\n") ==>
      && EndsWith(MakeWhitespacesVisible(text), CrLfVisualization)
      && NoPair(MakeWhitespacesVisible(text), '\r', '\n')
    ensures !EndsWith(text, "\r\n") && EndsWith(text, "\n") ==>
      && EndsWith(MakeWhitespacesVisible(text), LfVisualization)
      && MarkedBefore(MakeWhitespacesVisible(text), '\n', LfMark)
    ensures !EndsWith(text, "\n") && EndsWith(text, "\r") ==>
      && EndsWith(MakeWhitespacesVisible(text), CrVisualization)
      && '\r' !in MakeWhitespacesVisible(text)
    ensures !EndsWith(text, "\n") && !EndsWith(text, "\r") ==> MakeWhitespacesVisible(text) == MarkSpaces(text)
  {
    var middle := MarkSpaces(text);
    MarkSpacesKeepsEnding(text, "\r\n");
    MarkSpacesKeepsEnding(text, "\n");
    MarkSpacesKeepsEnding(text, "\r");
    if EndsWith(text, "\r\n") {
      CrLfShown(middle);
    } else if EndsWith(text, "\n") {
      LfShown(middle);
    } else if EndsWith(text, "\r") {
      CrShown(middle);
    }
  }

  lemma CrLfShown(middle: string)
    requires EndsWith(middle, "\r\n")
    ensures EndsWith(ReplaceAll(middle, "\r\n", CrLfVisualization), CrLfVisualization)
    ensures NoPair(ReplaceAll(middle, "\r\n", CrLfVisualization), '\r', '\n')
  {
    assert "\r\n"[..1][0] == '\r' && "\r\n"[1..][0] == '\n';
    EndingBecomes(middle, "\r\n", CrLfVisualization);
    assert NoPair(CrLfVisualization, '\r', '\n');
    ReplaceAllRemovesPair(middle, '\r', '\n', CrLfVisualization);
  }

  lemma LfShown(middle: string)
    requires EndsWith(middle, "\n")
    ensures EndsWith(ReplaceAll(middle, "\n", LfVisualization), LfVisualization)
    ensures MarkedBefore(ReplaceAll(middle, "\n", LfVisualization), '\n', LfMark)
  {
    EndingBecomes(middle, "\n", LfVisualization);
    assert LfVisualization == [LfMark, '\n'];
    ReplaceAllMarks(middle, '\n', LfMark);
  }

  lemma CrShown(middle: string)
    requires EndsWith(middle, "\r")
    ensures EndsWith(ReplaceAll(middle, "\r", CrVisualization), CrVisualization)
    ensures '\r' !in ReplaceAll(middle, "\r", CrVisualization)
  {
    EndingBecomes(middle, "\r", CrVisualization);
    ReplaceAllRemoves(middle, '\r', CrVisualization);
  }

  predicate IsChange(piece: DiffPiece) {
    piece.kind != Unchanged
  }

  /** The number of pieces that are not insertions. */
  function NonInsertedCount(pieces: seq<DiffPiece>): nat
  {
    if pieces == [] then 0
    else NonInsertedCount(pieces[..|pieces| - 1]) + (if pieces[|pieces| - 1].kind != Inserted then 1 else 0)
  }

  /** The line counter when the `i`-th piece is reached: one more than the
      number of earlier pieces that are not insertions. */
  function LineBefore(pieces: seq<DiffPiece>, i: nat): nat
    requires i <= |pieces|
  {
    1 + NonInsertedCount(pieces[..i])
  }

  /** The `i`-th piece is a change that follows an unchanged piece or opens the diff. */
  predicate StartsBlock(pieces: seq<DiffPiece>, i: nat)
    requires i < |pieces|
  {
    IsChange(pieces[i]) && (i == 0 || !IsChange(pieces[i - 1]))
  }

  /** The separator and `From line N:`, each on its own line. */
  function Header(line: nat): string {
    Separator + NewLine + "From line " + NatToString(line) + ":" + NewLine
  }

  /** What the `i`-th piece contributes: the header when it opens a block (at
      its position, or the counter when it has none), then for a change its
      prefix and its text, whitespace made visible on request. */
  function Emitted(pieces: seq<DiffPiece>, i: nat, showWhitespaces: bool): string
    requires i < |pieces|
  {
    var piece := pieces[i];
    (if StartsBlock(pieces, i) then Header(piece.position.GetOr(LineBefore(pieces, i))) else "")
    + (if IsChange(piece) then LinePrefix(piece) + (if showWhitespaces then MakeWhitespacesVisible(piece.text) else piece.text) else "")
  }

  /** The rendering of the first `n` pieces. */
  function Rendered(pieces: seq<DiffPiece>, n: nat, showWhitespaces: bool): string
    requires n <= |pieces|
  {
    if n == 0 then "" else Rendered(pieces, n - 1, showWhitespaces) + Emitted(pieces, n - 1, showWhitespaces)
  }

  /** The counter grows by one for every piece but an insertion. */
  lemma LineBeforeStep(pieces: seq<DiffPiece>, i: nat)
    requires i < |pieces|
    ensures LineBefore(pieces, i + 1) == LineBefore(pieces, i) + (if pieces[i].kind != Inserted then 1 else 0)
  {
    assert pieces[..i + 1][..i] == pieces[..i];
  }

  /** A piece opens a block exactly when it is the first piece of a maximal run
      of changes. */
  lemma OneHeaderPerBlock(pieces: seq<DiffPiece>, start: nat, end: nat, i: nat)
    requires start <= i < end <= |pieces|
    requires forall k :: start <= k < end ==> IsChange(pieces[k])
    requires start == 0 || !IsChange(pieces[start - 1])
    ensures StartsBlock(pieces, i) <==> i == start
  {
  }

  /** Unchanged pieces emit nothing: a diff without changes renders empty. */
  lemma {:induction false} NoChangesRenderEmpty(pieces: seq<DiffPiece>, n: nat, showWhitespaces: bool)
    requires n <= |pieces|
    requires forall k :: 0 <= k < n ==> !IsChange(pieces[k])
    ensures Rendered(pieces, n, showWhitespaces) == ""
  {
    if n > 0 {
      NoChangesRenderEmpty(pieces, n - 1, showWhitespaces);
    }
  }

  /** The message of `ContentDifferentThanExpectedException`. */
  function DifferenceMessage(actualFileName: string, expectedFileName: string, diff: string): string {
    "Content of " + actualFileName + " and " + expectedFileName + " is different than expected:" + NewLine + diff
  }

  /** One step of `GenerateInlineDiff`: the header it writes when the piece
      opens a block, and the prefixed text it writes for a change, are what
      the piece contributes. */
  lemma EmittedByStep(pieces: seq<DiffPiece>, i: nat, show: bool, lastChanged: bool, lastLine: nat, header: string, body: string)
    requires i < |pieces| && (lastChanged <==> i > 0 && IsChange(pieces[i - 1])) && lastLine == LineBefore(pieces, i)
    requires header == (if IsChange(pieces[i]) && !lastChanged then Header(pieces[i].position.GetOr(lastLine)) else "")
    requires body == (if IsChange(pieces[i]) then LinePrefix(pieces[i]) + (if show then MakeWhitespacesVisible(pieces[i].text) else pieces[i].text) else "")
    ensures header + body == Emitted(pieces, i, show)
  {
  }

  /** Rendering one more piece appends what that piece contributes. */
  lemma RenderedStep(pieces: seq<DiffPiece>, i: nat, show: bool)
    requires i < |pieces|
    ensures Rendered(pieces, i + 1, show) == Rendered(pieces, i, show) + Emitted(pieces, i, show)
  {
  }

  /** `EnhancedInlineDiffReporter` with its `ShowWhitespaces` setting. */
  class EnhancedInlineDiffReporter {
    var showWhitespaces: bool

    constructor ()
      ensures !showWhitespaces
    {
      showWhitespaces := false;
    }

    /** `GenerateInlineDiff`: one pass over the pieces, remembering whether the
        previous piece was a change and the line counter. */
    method GenerateInlineDiff(pieces: seq<DiffPiece>) returns (output: string)
      ensures output == Rendered(pieces, |pieces|, showWhitespaces)
    {
      output := "";
      var lastChanged := false;
      var lastLine: nat := 1;
      var i := 0;
      while i < |pieces|
        invariant i <= |pieces|
        invariant lastChanged <==> i > 0 && IsChange(pieces[i - 1])
        invariant lastLine == LineBefore(pieces, i)
        invariant output == Rendered(pieces, i, showWhitespaces)
      {
        var line := pieces[i];
        ghost var before := output;
        ghost var lastChanged0 := lastChanged;
        var header := "";
        var body := "";
        if line.kind != Unchanged {
          if !lastChanged {
            var linePosition := line.position.GetOr(lastLine);
            header := Header(linePosition);
          }
          lastChanged := true;
          if showWhitespaces {
            body := LinePrefix(line) + MakeWhitespacesVisible(line.text);
          } else {
            body := LinePrefix(line) + line.text;
          }
        } else {
          lastChanged := false;
        }
        EmittedByStep(pieces, i, showWhitespaces, lastChanged0, lastLine, header, body);
        output := output + (header + body);
        LineBeforeStep(pieces, i);
        RenderedStep(pieces, i, showWhitespaces);
        assert output == Rendered(pieces, i + 1, showWhitespaces);
        if line.kind != Inserted {
          lastLine := lastLine + 1;
        }
        i := i + 1;
      }
    }

    /** `Report`: always fails, with the received text as the actual content,
        the approved text as the expected one, and the rendered diff. The
        file reads and the line diff are parameters. */
    method Report(approved: string, received: string, readAllText: string -> string,
                  lineDiff: (string, string) -> seq<DiffPiece>) returns (e: Error)
      ensures e.ContentDifferent?
      ensures e.actualContent == readAllText(received) && e.expectedContent == readAllText(approved)
      ensures e.actualFileName == received && e.expectedFileName == approved
      ensures e.diff == Rendered(lineDiff(readAllText(approved), readAllText(received)),
                                 |lineDiff(readAllText(approved), readAllText(received))|, showWhitespaces)
      ensures e.message == DifferenceMessage(received, approved, e.diff)
    {
      var approvedContent := readAllText(approved);
      var receivedContent := readAllText(received);
      var inlineDiff := GenerateInlineDiff(lineDiff(approvedContent, receivedContent));
      e := ContentDifferent(receivedContent, approvedContent, received, approved, inlineDiff,
                            DifferenceMessage(received, approved, inlineDiff));
    }

    /** `IsWorkingInThisEnvironment`: this reporter works everywhere. */
    predicate IsWorkingInThisEnvironment(forFile: string) {
      true
    }
  }

  /** A deletion without a position followed by an insertion at line 2, between
      unchanged lines, renders as one block that starts at line 2. */
  lemma BlockExample()
    ensures Rendered([DiffPiece(Unchanged, "a\n", None), DiffPiece(Deleted, "b\n", None),
                      DiffPiece(Inserted, "x\n", Some(2)), DiffPiece(Unchanged, "c\n", None)], 4, false)
         == Header(2) + "- b\n" + "+ x\n"
  {
    var pieces := [DiffPiece(Unchanged, "a\n", None), DiffPiece(Deleted, "b\n", None),
                   DiffPiece(Inserted, "x\n", Some(2)), DiffPiece(Unchanged, "c\n", None)];
    assert LineBefore(pieces, 1) == 2 by {
      assert pieces[..1][..0] == [];
    }
    assert Emitted(pieces, 0, false) == "";
    assert Rendered(pieces, 1, false) == "";
    assert Emitted(pieces, 1, false) == Header(2) + "- b\n";
    assert Rendered(pieces, 2, false) == Header(2) + "- b\n";
    assert Emitted(pieces, 2, false) == "+ x\n";
    assert Rendered(pieces, 3, false) == Header(2) + "- b\n" + "+ x\n";
    assert Emitted(pieces, 3, false) == "";
  }
}
