/** `PatternScrubber`: an ordered list of rules; each rule replaces every match
    of its pattern with a placeholder `__{prefix}_{k}__`, where `k` numbers the
    distinct matched texts in order of first appearance.

    The regular-expression engine is not modelled: a `Regex` is any function
    that returns, for an input, the spans of its matches in bounds, left to
    right and without overlap, as `Regex.Replace` enumerates them.
 */
module PatternScrubbing {
  import opened Text

  /** A match: the characters `[start, end)` of the input. */
  datatype Span = Span(start: nat, end: nat)

  /** Matches in bounds, left to right, not overlapping. */
  predicate Ordered(spans: seq<Span>, len: nat) {
    && (forall i :: 0 <= i < |spans| ==> spans[i].start <= spans[i].end <= len)
    && (forall i :: 0 < i < |spans| ==> spans[i - 1].end <= spans[i].start)
  }

  type Regex = f: string -> seq<Span> | forall s :: Ordered(f(s), |s|)
    witness (s: string) => []

  /** `PatternScrubberRule`: a pattern and the prefix of its placeholders. */
  datatype Rule = Rule(pattern: Regex, replacementPrefix: string)

  /** The placeholder `__{prefix}_{k}__`. */
  function Placeholder(prefix: string, k: nat): string {
    "__" + prefix + "_" + NatToString(k) + "__"
  }

  /** Placeholders of one rule are distinct for distinct numbers. */
  lemma PlaceholderInjective(prefix: string, m: nat, n: nat)
    ensures Placeholder(prefix, m) == Placeholder(prefix, n) <==> m == n
  {
    var head := "__" + prefix + "_";
    var pm, pn := Placeholder(prefix, m), Placeholder(prefix, n);
    if pm == pn {
      assert pm == head + NatToString(m) + "__";
      assert pn == head + NatToString(n) + "__";
      assert pm[|head|..|pm| - 2] == NatToString(m);
      assert pn[|head|..|pn| - 2] == NatToString(n);
      NatToStringInjective(m, n);
    }
  }

  /** The distinct values of `vals`, in order of first appearance. */
  function FirstSeen(vals: seq<string>): (r: seq<string>)
    ensures forall v :: v in r <==> v in vals
    ensures |r| <= |vals|
  {
    if vals == [] then []
    else
      var r := FirstSeen(vals[..|vals| - 1]);
      assert forall v :: v in vals <==> v in vals[..|vals| - 1] || v == vals[|vals| - 1] by {
        assert vals == vals[..|vals| - 1] + [vals[|vals| - 1]];
      }
      if vals[|vals| - 1] in r then r else r + [vals[|vals| - 1]]
  }

  /** The position of `v` in `s`: its first occurrence. */
  function IndexOf(s: seq<string>, v: string): (k: nat)
    requires v in s
    ensures k < |s| && s[k] == v && v !in s[..k]
  {
    if s[0] == v then 0 else 1 + IndexOf(s[1..], v)
  }

  lemma IndexOfUnique(s: seq<string>, v: string, k: nat)
    requires k < |s| && s[k] == v && v !in s[..k]
    ensures IndexOf(s, v) == k
  {
  }

  /** The distinct values of a prefix are a prefix of the distinct values. */
  lemma {:induction false} FirstSeenPrefix(vals: seq<string>, i: nat)
    requires i <= |vals|
    ensures |FirstSeen(vals[..i])| <= |FirstSeen(vals)|
    ensures FirstSeen(vals[..i]) == FirstSeen(vals)[..|FirstSeen(vals[..i])|]
    decreases |vals| - i
  {
    if i < |vals| {
      FirstSeenPrefix(vals, i + 1);
      var shorter := vals[..i + 1];
      assert shorter[..|shorter| - 1] == vals[..i];
    } else {
      assert vals[..i] == vals;
    }
  }

  /** The placeholder of the `j`-th match: numbered by the place its text
      takes among the distinct matched texts. */
  function Placeholders(vals: seq<string>, prefix: string): (r: seq<string>)
    ensures |r| == |vals|
  {
    var distinct := FirstSeen(vals);
    seq(|vals|, j requires 0 <= j < |vals| => Placeholder(prefix, IndexOf(distinct, vals[j])))
  }

  /** First-seen numbering: a text matched for the first time at `j` gets the
      number of distinct texts matched before it. */
  lemma NewTextGetsNextNumber(vals: seq<string>, prefix: string, j: nat)
    requires j < |vals| && vals[j] !in vals[..j]
    ensures Placeholders(vals, prefix)[j] == Placeholder(prefix, |FirstSeen(vals[..j])|)
  {
    var distinct := FirstSeen(vals);
    FirstSeenPrefix(vals, j + 1);
    var upTo := vals[..j + 1];
    assert upTo[..|upTo| - 1] == vals[..j];
    var before := FirstSeen(vals[..j]);
    assert vals[j] !in before;
    assert FirstSeen(upTo) == before + [vals[j]];
    assert distinct[|before|] == vals[j];
    assert distinct[..|before|] == before;
    IndexOfUnique(distinct, vals[j], |before|);
  }

  /** Two matches share a placeholder exactly when their texts are equal. */
  lemma SamePlaceholderIffSameText(vals: seq<string>, prefix: string, i: nat, j: nat)
    requires i < |vals| && j < |vals|
    ensures Placeholders(vals, prefix)[i] == Placeholders(vals, prefix)[j] <==> vals[i] == vals[j]
  {
    var distinct := FirstSeen(vals);
    PlaceholderInjective(prefix, IndexOf(distinct, vals[i]), IndexOf(distinct, vals[j]));
  }

  /** Three matches "7", "9", "7" under prefix "id" become `__id_0__`,
      `__id_1__`, `__id_0__`. */
  lemma PlaceholdersExample()
    ensures Placeholders(["7", "9", "7"], "id") == ["__id_0__", "__id_1__", "__id_0__"]
  {
    var vals := ["7", "9", "7"];
    assert vals[..2][..1] == ["7"];
    assert vals[..2] == ["7", "9"];
    assert vals[..1] == ["7"];
    var distinct := FirstSeen(vals);
    assert distinct == ["7", "9"];
    assert IndexOf(distinct, "7") == 0;
    assert IndexOf(distinct, "9") == 1 by {
      IndexOfUnique(distinct, "9", 1);
    }
    assert NatToString(0) == "0" && NatToString(1) == "1";
    var p := Placeholders(vals, "id");
    assert p[0] == Placeholder("id", 0) == "__id_0__";
    assert p[1] == Placeholder("id", 1) == "__id_1__";
    assert p[2] == Placeholder("id", 0);
  }

  /** The matched texts. */
  function Values(input: string, spans: seq<Span>): (r: seq<string>)
    requires Ordered(spans, |input|)
    ensures |r| == |spans|
  {
    seq(|spans|, j requires 0 <= j < |spans| => input[spans[j].start..spans[j].end])
  }

  /** `input` from `pos` on, with the `j`-th span replaced by `reps[j]` for
      every `j` from `i` on. */
  function SpliceFrom(input: string, spans: seq<Span>, reps: seq<string>, i: nat, pos: nat): string
    requires |reps| == |spans| && i <= |spans| && pos <= |input| && Ordered(spans, |input|)
    requires i < |spans| ==> pos <= spans[i].start
    decreases |spans| - i
  {
    if i == |spans| then input[pos..]
    else input[pos..spans[i].start] + reps[i] + SpliceFrom(input, spans, reps, i + 1, spans[i].end)
  }

  /** Text outside the matches is copied unchanged and in order: putting each
      match's own text back gives the input again. */
  lemma {:induction false} SpliceOwnTextIsIdentity(input: string, spans: seq<Span>, i: nat, pos: nat)
    requires i <= |spans| && pos <= |input| && Ordered(spans, |input|)
    requires i < |spans| ==> pos <= spans[i].start
    ensures SpliceFrom(input, spans, Values(input, spans), i, pos) == input[pos..]
    decreases |spans| - i
  {
    if i < |spans| {
      var vals := Values(input, spans);
      SpliceOwnTextIsIdentity(input, spans, i + 1, spans[i].end);
      assert input[pos..] == input[pos..spans[i].start] + vals[i] + input[spans[i].end..];
    }
  }

  /** What one rule makes of `input` (`ScrubMatches`). A rule whose pattern
      does not match leaves the input as it is. */
  function Masked(input: string, rule: Rule): (r: string)
    ensures rule.pattern(input) == [] ==> r == input
  {
    var spans := rule.pattern(input);
    SpliceFrom(input, spans, Placeholders(Values(input, spans), rule.replacementPrefix), 0, 0)
  }

  /** What the rules, applied in order, make of `input` (`Scrub`). */
  function MaskedByRules(rules: seq<Rule>, input: string): string
    decreases |rules|
  {
    if rules == [] then input else MaskedByRules(rules[1..], Masked(input, rules[0]))
  }

  /** With no rules the input is returned unchanged. */
  lemma NoRulesIsIdentity(input: string)
    ensures MaskedByRules([], input) == input
  {
  }

  /** The rules `r1 + r2` act as `r1` followed by `r2`: each rule works on the
      previous rule's output. */
  lemma {:induction false} RulesCompose(r1: seq<Rule>, r2: seq<Rule>, input: string)
    ensures MaskedByRules(r1 + r2, input) == MaskedByRules(r2, MaskedByRules(r1, input))
    decreases |r1|
  {
    if r1 != [] {
      assert (r1 + r2)[1..] == r1[1..] + r2;
      RulesCompose(r1[1..], r2, Masked(input, r1[0]));
    } else {
      assert r1 + r2 == r2;
    }
  }

  /** The placeholder map of `ScrubMatches` after the first `i` matches: the
      texts seen so far, each with its placeholder. */
  ghost predicate MapAfter(placeholderMap: map<string, string>, seen: seq<string>, prefix: string) {
    && (forall v :: v in placeholderMap <==> v in seen)
    && (forall v :: v in placeholderMap ==> placeholderMap[v] == Placeholder(prefix, IndexOf(seen, v)))
    && |placeholderMap| == |seen|
  }

  /** The distinct texts after one more match. */
  lemma FirstSeenStep(vals: seq<string>, i: nat)
    requires i < |vals|
    ensures vals[i] in FirstSeen(vals[..i]) ==> FirstSeen(vals[..i + 1]) == FirstSeen(vals[..i])
    ensures vals[i] !in FirstSeen(vals[..i]) ==> FirstSeen(vals[..i + 1]) == FirstSeen(vals[..i]) + [vals[i]]
  {
    var upTo := vals[..i + 1];
    assert upTo[..|upTo| - 1] == vals[..i];
  }

  /** A text among the first `i + 1` matches is numbered as in all matches. */
  lemma IndexInPrefix(vals: seq<string>, i: nat)
    requires i < |vals|
    ensures vals[i] in FirstSeen(vals[..i + 1])
    ensures IndexOf(FirstSeen(vals), vals[i]) == IndexOf(FirstSeen(vals[..i + 1]), vals[i])
  {
    LastIsSeen(vals, i);
    FirstSeenPrefix(vals, i + 1);
    IndexOfInPrefix(FirstSeen(vals), FirstSeen(vals[..i + 1]), vals[i]);
  }

  /** The `i`-th match is among the distinct texts of the first `i + 1`. */
  lemma LastIsSeen(vals: seq<string>, i: nat)
    requires i < |vals|
    ensures vals[i] in FirstSeen(vals[..i + 1])
  {
    assert vals[..i + 1][i] == vals[i];
  }

  /** A value found in a prefix has the same position in the whole sequence. */
  lemma IndexOfInPrefix(s: seq<string>, p: seq<string>, v: string)
    requires |p| <= |s| && p == s[..|p|] && v in p
    ensures v in s && IndexOf(s, v) == IndexOf(p, v)
  {
    var k := IndexOf(p, v);
    assert s[..k] == p[..k];
    IndexOfUnique(s, v, k);
  }

  /** Appending a new text keeps the numbers of the texts already seen. */
  lemma IndexAfterAppend(seen: seq<string>, key: string, v: string)
    requires key !in seen && (v in seen || v == key)
    ensures IndexOf(seen + [key], v) == if v == key then |seen| else IndexOf(seen, v)
  {
    var seen' := seen + [key];
    if v == key {
      assert seen'[..|seen|] == seen;
      IndexOfUnique(seen', key, |seen|);
    } else {
      var kv := IndexOf(seen, v);
      assert seen'[..kv] == seen[..kv];
      IndexOfUnique(seen', v, kv);
    }
  }

  /** A new text extends the map with the next placeholder. */
  lemma MapGrows(placeholderMap: map<string, string>, seen: seq<string>, key: string, prefix: string)
    requires MapAfter(placeholderMap, seen, prefix) && key !in placeholderMap
    ensures MapAfter(placeholderMap[key := Placeholder(prefix, |placeholderMap|)], seen + [key], prefix)
  {
    var m' := placeholderMap[key := Placeholder(prefix, |placeholderMap|)];
    var seen' := seen + [key];
    assert key !in seen;
    forall v | v in m'
      ensures m'[v] == Placeholder(prefix, IndexOf(seen', v))
    {
      IndexAfterAppend(seen, key, v);
    }
    assert forall v :: v in m' <==> v in seen';
  }

  /** One step of `ScrubMatches` on a text already in the map: the map's
      placeholder is the one `Placeholders` assigns, and the map stays as it is. */
  lemma MapStepSeen(vals: seq<string>, i: nat, placeholderMap: map<string, string>, prefix: string)
    requires i < |vals| && MapAfter(placeholderMap, FirstSeen(vals[..i]), prefix)
    requires vals[i] in placeholderMap
    ensures placeholderMap[vals[i]] == Placeholders(vals, prefix)[i]
    ensures MapAfter(placeholderMap, FirstSeen(vals[..i + 1]), prefix)
  {
    FirstSeenStep(vals, i);
    IndexInPrefix(vals, i);
  }

  /** One step of `ScrubMatches` on a new text: the next placeholder is the one
      `Placeholders` assigns, and the map grows to cover the text. */
  lemma MapStepNew(vals: seq<string>, i: nat, placeholderMap: map<string, string>, prefix: string)
    requires i < |vals| && MapAfter(placeholderMap, FirstSeen(vals[..i]), prefix)
    requires vals[i] !in placeholderMap
    ensures Placeholder(prefix, |placeholderMap|) == Placeholders(vals, prefix)[i]
    ensures MapAfter(placeholderMap[vals[i] := Placeholder(prefix, |placeholderMap|)], FirstSeen(vals[..i + 1]), prefix)
  {
    var seen := FirstSeen(vals[..i]);
    FirstSeenStep(vals, i);
    IndexInPrefix(vals, i);
    MapGrows(placeholderMap, seen, vals[i], prefix);
    IndexAfterAppend(seen, vals[i], vals[i]);
  }

  /** Splicing from the `i`-th span on: the gap before it and its replacement
      join the text built so far, and splicing goes on after it. */
  lemma SpliceStep(input: string, spans: seq<Span>, reps: seq<string>, i: nat, pos: nat, built: string)
    requires |reps| == |spans| && i < |spans| && pos <= spans[i].start && Ordered(spans, |input|)
    ensures i + 1 < |spans| ==> spans[i].end <= spans[i + 1].start
    ensures built + SpliceFrom(input, spans, reps, i, pos)
         == (built + input[pos..spans[i].start] + reps[i]) + SpliceFrom(input, spans, reps, i + 1, spans[i].end)
  {
  }

  /** One match of the `Regex.Replace` pass: the placeholder the map yields
      (or the next one, for a new text) is the one `Placeholders` assigns, the
      spliced text grows by the gap and that placeholder, and the map covers
      the texts seen so far. */
  lemma ReplaceStep(input: string, spans: seq<Span>, prefix: string, i: nat, pos: nat,
                    output: string, placeholderMap: map<string, string>)
    requires Ordered(spans, |input|) && i < |spans| && pos <= spans[i].start
    requires MapAfter(placeholderMap, FirstSeen(Values(input, spans)[..i]), prefix)
    ensures i + 1 < |spans| ==> spans[i].end <= spans[i + 1].start
    ensures
      var reps := Placeholders(Values(input, spans), prefix);
      var key := input[spans[i].start..spans[i].end];
      var placeholder := if key in placeholderMap then placeholderMap[key] else Placeholder(prefix, |placeholderMap|);
      && output + SpliceFrom(input, spans, reps, i, pos)
         == (output + input[pos..spans[i].start] + placeholder) + SpliceFrom(input, spans, reps, i + 1, spans[i].end)
      && MapAfter(if key in placeholderMap then placeholderMap else placeholderMap[key := placeholder],
                  FirstSeen(Values(input, spans)[..i + 1]), prefix)
  {
    var vals := Values(input, spans);
    var reps := Placeholders(vals, prefix);
    var key := input[spans[i].start..spans[i].end];
    assert key == vals[i];
    if key in placeholderMap {
      MapStepSeen(vals, i, placeholderMap, prefix);
    } else {
      MapStepNew(vals, i, placeholderMap, prefix);
    }
    SpliceStep(input, spans, reps, i, pos, output);
  }

  /** `ScrubMatches`: the pattern's matches, each replaced by its placeholder. */
  method ScrubMatches(input: string, pattern: Regex, replacementPrefix: string) returns (output: string)
    ensures output == Masked(input, Rule(pattern, replacementPrefix))
  {
    var spans := pattern(input);
    output := ReplaceMatches(input, spans, replacementPrefix);
  }

  /** The `Regex.Replace` pass of `ScrubMatches`: one pass over the matches,
      building the output and a placeholder map that starts empty on every call. */
  method ReplaceMatches(input: string, spans: seq<Span>, replacementPrefix: string) returns (output: string)
    requires Ordered(spans, |input|)
    ensures output == SpliceFrom(input, spans, Placeholders(Values(input, spans), replacementPrefix), 0, 0)
  {
    ghost var vals := Values(input, spans);
    ghost var reps := Placeholders(vals, replacementPrefix);
    var placeholderMap: map<string, string> := map[];
    output := "";
    var pos: nat := 0;
    var i := 0;
    assert vals[..0] == [];
    while i < |spans|
      invariant i <= |spans|
      invariant pos <= |input| && (i < |spans| ==> pos <= spans[i].start)
      invariant output + SpliceFrom(input, spans, reps, i, pos) == SpliceFrom(input, spans, reps, 0, 0)
      invariant MapAfter(placeholderMap, FirstSeen(vals[..i]), replacementPrefix)
    {
      var key := input[spans[i].start..spans[i].end];
      ReplaceStep(input, spans, replacementPrefix, i, pos, output, placeholderMap);
      var placeholder;
      if key in placeholderMap {
        placeholder := placeholderMap[key];
      } else {
        placeholder := "__" + replacementPrefix + "_" + NatToString(|placeholderMap|) + "__";
        placeholderMap := placeholderMap[key := placeholder];
      }
      output := output + input[pos..spans[i].start] + placeholder;
      pos := spans[i].end;
      i := i + 1;
    }
    output := output + input[pos..];
  }

  /** `PatternScrubber`: the rules in the order they were added. */
  class PatternScrubber {
    var rules: seq<Rule>

    constructor ()
      ensures rules == []
    {
      rules := [];
    }

    /** `Add`: the rule goes to the end; enumeration yields `rules` as they stand. */
    method Add(rule: Rule)
      modifies this
      ensures rules == old(rules) + [rule]
    {
      rules := rules + [rule];
    }

    /** `Scrub`: every rule in turn, each over the previous rule's output. */
    method Scrub(input: string) returns (result: string)
      ensures result == MaskedByRules(rules, input)
    {
      result := input;
      var i := 0;
      while i < |rules|
        invariant i <= |rules|
        invariant MaskedByRules(rules[i..], result) == MaskedByRules(rules, input)
      {
        assert rules[i..][1..] == rules[i + 1..];
        result := ScrubMatches(result, rules[i].pattern, rules[i].replacementPrefix);
        i := i + 1;
      }
    }
  }
}
