/** String helpers that the C# code takes from the .NET base library:
    `char.IsWhiteSpace`, `string.Replace`, `EndsWith`, `ToLower`, integer
    formatting and an ordinal string order.
 */
module Text {

  /** `Environment.NewLine`, fixed to a line feed. */
  const NewLine: string := "\n"

  /** `char.IsWhiteSpace`: the Unicode space, line and paragraph separators,
      the control characters U+0009 to U+000D, and U+0085. */
  predicate IsWhiteSpace(c: char) {
    || c == ' ' || ('\t' <= c <= '\r') || c == '\U{0085}' || c == '\U{00A0}'
    || c == '\U{1680}' || ('\U{2000}' <= c <= '\U{200A}') || c == '\U{2028}'
    || c == '\U{2029}' || c == '\U{202F}' || c == '\U{205F}' || c == '\U{3000}'
  }

  /** `string.IsNullOrWhiteSpace` on a non-null string. */
  predicate IsBlank(s: string) {
    forall i :: 0 <= i < |s| ==> IsWhiteSpace(s[i])
  }

  predicate EndsWith(s: string, suffix: string) {
    |suffix| <= |s| && s[|s| - |suffix|..] == suffix
  }

  /** `string.Replace(char, char)`: every `from` becomes `to`. */
  function ReplaceChar(s: string, from: char, to: char): (r: string)
    ensures |r| == |s|
    ensures forall i :: 0 <= i < |s| ==> r[i] == (if s[i] == from then to else s[i])
  {
    if s == [] then [] else [if s[0] == from then to else s[0]] + ReplaceChar(s[1..], from, to)
  }

  /** `string.Replace(string, string)` (ordinal): scanning left to right,
      every non-overlapping occurrence of `pat` becomes `rep`. */
  function ReplaceAll(s: string, pat: string, rep: string): string
    requires |pat| > 0
    decreases |s|
  {
    if |s| < |pat| then s
    else if s[..|pat|] == pat then rep + ReplaceAll(s[|pat|..], pat, rep)
    else [s[0]] + ReplaceAll(s[1..], pat, rep)
  }

  /** A character that is neither in the text nor in the replacement is not in the result. */
  lemma {:induction false} ReplaceAllAvoids(s: string, pat: string, rep: string, c: char)
    requires |pat| > 0 && c !in s && c !in rep
    ensures c !in ReplaceAll(s, pat, rep)
    decreases |s|
  {
    if |s| < |pat| {
    } else if s[..|pat|] == pat {
      ReplaceAllAvoids(s[|pat|..], pat, rep, c);
    } else {
      ReplaceAllAvoids(s[1..], pat, rep, c);
    }
  }

  /** Replacing a single character by text without it removes every occurrence. */
  lemma {:induction false} ReplaceAllRemoves(s: string, c: char, rep: string)
    requires c !in rep
    ensures c !in ReplaceAll(s, [c], rep)
    decreases |s|
  {
    if |s| >= 1 {
      ReplaceAllRemoves(s[1..], c, rep);
    }
  }

  /** Every `c` in `s` comes directly after a `mark`. */
  predicate MarkedBefore(s: string, c: char, mark: char) {
    forall i :: 0 <= i < |s| && s[i] == c ==> 0 < i && s[i - 1] == mark
  }

  lemma MarkedBeforeJoin(a: string, b: string, c: char, mark: char)
    requires MarkedBefore(a, c, mark) && MarkedBefore(b, c, mark)
    ensures MarkedBefore(a + b, c, mark)
  {
    forall i | 0 <= i < |a + b| && (a + b)[i] == c
      ensures 0 < i && (a + b)[i - 1] == mark
    {
      if i < |a| {
        assert a[i] == c;
      } else {
        assert b[i - |a|] == c;
      }
    }
  }

  /** Replacing every `c` by `mark` followed by `c` leaves every `c` marked. */
  lemma {:induction false} ReplaceAllMarks(s: string, c: char, mark: char)
    requires mark != c
    ensures MarkedBefore(ReplaceAll(s, [c], [mark, c]), c, mark)
    decreases |s|
  {
    if |s| >= 1 {
      var rest := ReplaceAll(s[1..], [c], [mark, c]);
      ReplaceAllMarks(s[1..], c, mark);
      if s[..1] == [c] {
        MarkedBeforeJoin([mark, c], rest, c, mark);
      } else {
        MarkedBeforeJoin([s[0]], rest, c, mark);
      }
    }
  }

  /** No `x` in `s` is directly followed by a `y`. */
  predicate NoPair(s: string, x: char, y: char) {
    forall i :: 0 < i < |s| ==> !(s[i - 1] == x && s[i] == y)
  }

  lemma NoPairJoin(a: string, b: string, x: char, y: char)
    requires NoPair(a, x, y) && NoPair(b, x, y)
    requires a != [] && b != [] ==> !(a[|a| - 1] == x && b[0] == y)
    ensures NoPair(a + b, x, y)
  {
    forall i | 0 < i < |a + b|
      ensures !((a + b)[i - 1] == x && (a + b)[i] == y)
    {
      if i < |a| {
        assert (a + b)[i - 1] == a[i - 1] && (a + b)[i] == a[i];
      } else if i == |a| {
        assert (a + b)[i - 1] == a[|a| - 1] && (a + b)[i] == b[0];
      } else {
        assert (a + b)[i - 1] == b[i - 1 - |a|] && (a + b)[i] == b[i - |a|];
      }
    }
  }

  /** The replacement of a non-empty text starts with its first character or
      with the replacement text. */
  lemma ReplaceAllFirst(s: string, pat: string, rep: string)
    requires |pat| > 0 && s != [] && rep != []
    ensures ReplaceAll(s, pat, rep) != []
    ensures ReplaceAll(s, pat, rep)[0] == s[0] || ReplaceAll(s, pat, rep)[0] == rep[0]
  {
  }

  /** Replacing every two-character pattern `x y` by a text that neither
      holds the pair nor can form it with its neighbours leaves no pair. */
  lemma {:induction false} ReplaceAllRemovesPair(s: string, x: char, y: char, rep: string)
    requires rep != [] && rep[0] != y && rep[|rep| - 1] != x && NoPair(rep, x, y)
    ensures NoPair(ReplaceAll(s, [x, y], rep), x, y)
    decreases |s|
  {
    if |s| >= 2 {
      if s[..2] == [x, y] {
        ReplaceAllRemovesPair(s[2..], x, y, rep);
        NoPairJoin(rep, ReplaceAll(s[2..], [x, y], rep), x, y);
      } else {
        var rest := ReplaceAll(s[1..], [x, y], rep);
        ReplaceAllRemovesPair(s[1..], x, y, rep);
        ReplaceAllFirst(s[1..], [x, y], rep);
        assert s[0] == x ==> s[1] != y;
        NoPairJoin([s[0]], rest, x, y);
      }
    }
  }

  /** A pattern none of whose proper prefixes is also a suffix cannot straddle
      the boundary of a text that ends with it. */
  predicate Borderless(pat: string) {
    forall k :: 0 < k < |pat| ==> pat[..k] != pat[|pat| - k..]
  }

  /** A text shorter than a borderless pattern, followed by the pattern, does
      not start with the pattern. */
  lemma NoStraddle(a: string, pat: string)
    requires 0 < |a| < |pat| && Borderless(pat)
    ensures (a + pat)[..|pat|] != pat
  {
    var k := |pat| - |a|;
    assert (a + pat)[|a|..|pat|] == pat[..k];
  }

  /** Replacing a borderless pattern in a text that ends with it leaves the
      replacement at the end. */
  lemma {:induction false} ReplaceAllOfTerminated(a: string, pat: string, rep: string)
    requires |pat| > 0 && Borderless(pat)
    ensures ReplaceAll(a + pat, pat, rep) == ReplaceAll(a, pat, rep) + rep
    decreases |a|, 1
  {
    var s := a + pat;
    if a == [] {
      assert s[..|pat|] == pat && s[|pat|..] == [];
    } else if |a| < |pat| {
      NoStraddle(a, pat);
      ShortPrefixStep(a, pat, rep);
    } else if s[..|pat|] == pat {
      MatchStep(a, pat, rep);
    } else {
      MismatchStep(a, pat, rep);
    }
  }

  lemma {:induction false} ShortPrefixStep(a: string, pat: string, rep: string)
    requires 0 < |a| < |pat| && Borderless(pat) && (a + pat)[..|pat|] != pat
    ensures ReplaceAll(a + pat, pat, rep) == ReplaceAll(a, pat, rep) + rep
    decreases |a|, 0
  {
    var s := a + pat;
    assert s[0] == a[0] && s[1..] == a[1..] + pat;
    assert ReplaceAll(s, pat, rep) == [a[0]] + ReplaceAll(a[1..] + pat, pat, rep);
    assert ReplaceAll(a, pat, rep) == a && ReplaceAll(a[1..], pat, rep) == a[1..];
    ReplaceAllOfTerminated(a[1..], pat, rep);
    assert [a[0]] + (a[1..] + rep) == a + rep;
  }

  lemma {:induction false} MatchStep(a: string, pat: string, rep: string)
    requires 0 < |pat| <= |a| && Borderless(pat) && (a + pat)[..|pat|] == pat
    ensures ReplaceAll(a + pat, pat, rep) == ReplaceAll(a, pat, rep) + rep
    decreases |a|, 0
  {
    assert a[..|pat|] == pat;
    assert (a + pat)[|pat|..] == a[|pat|..] + pat;
    ReplaceAllOfTerminated(a[|pat|..], pat, rep);
  }

  lemma {:induction false} MismatchStep(a: string, pat: string, rep: string)
    requires 0 < |pat| <= |a| && Borderless(pat) && (a + pat)[..|pat|] != pat
    ensures ReplaceAll(a + pat, pat, rep) == ReplaceAll(a, pat, rep) + rep
    decreases |a|, 0
  {
    var s := a + pat;
    assert s[0] == a[0] && s[1..] == a[1..] + pat;
    assert ReplaceAll(s, pat, rep) == [a[0]] + ReplaceAll(a[1..] + pat, pat, rep);
    assert a[..|pat|] == s[..|pat|];
    assert ReplaceAll(a, pat, rep) == [a[0]] + ReplaceAll(a[1..], pat, rep);
    ReplaceAllOfTerminated(a[1..], pat, rep);
  }

  /** ASCII lower-casing of one character. */
  function ToLowerChar(c: char): char {
    if 'A' <= c <= 'Z' then (c as int + 32) as char else c
  }

  /** `string.ToLower`, restricted to ASCII letters. */
  function ToLower(s: string): (r: string)
    ensures |r| == |s|
    ensures forall i :: 0 <= i < |s| ==> r[i] == ToLowerChar(s[i])
  {
    if s == [] then [] else [ToLowerChar(s[0])] + ToLower(s[1..])
  }

  function Digit(d: nat): (c: char)
    requires d < 10
    ensures '0' <= c <= '9'
  {
    ('0' as int + d) as char
  }

  /** Decimal digits of `n`, as `int.ToString()` prints a non-negative number. */
  function NatToString(n: nat): (r: string)
    ensures |r| >= 1
    ensures forall i :: 0 <= i < |r| ==> '0' <= r[i] <= '9'
    decreases n
  {
    if n < 10 then [Digit(n)] else NatToString(n / 10) + [Digit(n % 10)]
  }

  /** The value of a string of decimal digits. */
  function DecimalValue(s: string): nat
    requires forall i :: 0 <= i < |s| ==> '0' <= s[i] <= '9'
  {
    if s == [] then 0 else DecimalValue(s[..|s| - 1]) * 10 + (s[|s| - 1] as int - '0' as int)
  }

  /** Printing a number and reading its digits back gives the number. */
  lemma {:induction false} NatToStringRoundTrip(n: nat)
    ensures DecimalValue(NatToString(n)) == n
    decreases n
  {
    if n >= 10 {
      var t := NatToString(n / 10);
      var r := t + [Digit(n % 10)];
      assert r[..|r| - 1] == t;
      NatToStringRoundTrip(n / 10);
    }
  }

  /** Distinct numbers print as distinct strings. */
  lemma NatToStringInjective(m: nat, n: nat)
    ensures NatToString(m) == NatToString(n) <==> m == n
  {
    NatToStringRoundTrip(m);
    NatToStringRoundTrip(n);
  }

  /** Ordinal (code point by code point) string order. */
  predicate Less(a: string, b: string) {
    if a == [] then b != []
    else if b == [] then false
    else if a[0] != b[0] then a[0] < b[0]
    else Less(a[1..], b[1..])
  }

  lemma LessIrreflexive(a: string)
    ensures !Less(a, a)
  {
  }

  lemma LessTransitive(a: string, b: string, c: string)
    requires Less(a, b) && Less(b, c)
    ensures Less(a, c)
  {
    if a != [] && b != [] && c != [] && a[0] == b[0] && b[0] == c[0] {
      LessTransitive(a[1..], b[1..], c[1..]);
    }
  }

  lemma LessTotal(a: string, b: string)
    requires a != b
    ensures Less(a, b) || Less(b, a)
  {
    if a != [] && b != [] && a[0] == b[0] {
      assert a == [a[0]] + a[1..] && b == [b[0]] + b[1..];
      LessTotal(a[1..], b[1..]);
    }
  }

  lemma LessAsymmetric(a: string, b: string)
    requires Less(a, b)
    ensures !Less(b, a)
  {
    if a != [] && b != [] && a[0] == b[0] {
      LessAsymmetric(a[1..], b[1..]);
    }
  }
}
