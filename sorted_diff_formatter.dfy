/** `AlphabeticallySortedJsonDiffFormatter`: prints a JSON diff with the
    properties of every object, at every depth reached through object values,
    in ascending order of their names. Objects inside arrays keep their order.

    The sort works on a deep clone in the C# code; here trees are values, so
    the input is never changed. Names are ordered ordinally.
 */
module SortedDiffFormatting {
  import opened Base
  import opened Text
  import opened JsonTree

  /** `Sort` on a property value: an object is sorted, anything else stays. */
  function SortValue(v: Json): (r: Json)
    ensures r.JObject? <==> v.JObject?
    decreases v, 2
  {
    if v.JObject? then JObject(SortProps(v.props)) else v
  }

  /** The properties of an object after `Sort`: ordered by name, each value
      sorted in turn. Sorting the values before ordering the properties gives
      the same tree as the C# order, since ordering looks only at names. */
  function SortProps(ps: seq<Property>): (r: seq<Property>)
    decreases ps, 1
  {
    InsertionSort(SortValues(ps))
  }

  /** One property with its value sorted. */
  function SortProperty(p: Property): (r: Property)
    ensures r.name == p.name
    decreases p, 0
  {
    Property(p.name, SortValue(p.value))
  }

  /** Every property with its value sorted, in the original order. */
  function SortValues(ps: seq<Property>): (r: seq<Property>)
    ensures |r| == |ps|
    ensures forall i :: 0 <= i < |ps| ==> r[i] == SortProperty(ps[i])
    decreases ps, 0
  {
    if ps == [] then [] else [SortProperty(ps[0])] + SortValues(ps[1..])
  }

  /** Inserts `p` after every property whose name is not greater than its own. */
  function Insert(p: Property, s: seq<Property>): (r: seq<Property>)
    ensures multiset(r) == multiset(s) + multiset{p}
  {
    if s == [] then [p]
    else if Less(p.name, s[0].name) then [p] + s
    else
      assert s == [s[0]] + s[1..];
      [s[0]] + Insert(p, s[1..])
  }

  /** A stable sort by name (`OrderBy(p => p.Name)`). */
  function InsertionSort(ps: seq<Property>): (r: seq<Property>)
    ensures multiset(r) == multiset(ps)
  {
    if ps == [] then []
    else
      assert ps == ps[..|ps| - 1] + [ps[|ps| - 1]];
      Insert(ps[|ps| - 1], InsertionSort(ps[..|ps| - 1]))
  }

  /** No name comes before the name of a property earlier in the list. */
  predicate Sorted(s: seq<Property>) {
    forall i, k :: 0 <= i < k < |s| ==> !Less(s[k].name, s[i].name)
  }

  /** Properties of one object have distinct names. */
  predicate UniqueNames(s: seq<Property>) {
    forall i, k :: 0 <= i < k < |s| ==> s[i].name != s[k].name
  }

  /** Names strictly increase along the object. */
  predicate StrictlySorted(s: seq<Property>) {
    forall i, k :: 0 <= i < k < |s| ==> Less(s[i].name, s[k].name)
  }

  lemma {:induction false} InsertKeepsSorted(p: Property, s: seq<Property>)
    requires Sorted(s)
    ensures Sorted(Insert(p, s))
    decreases |s|
  {
    if s != [] && !Less(p.name, s[0].name) {
      InsertKeepsSorted(p, s[1..]);
      var r := Insert(p, s);
      var tail := Insert(p, s[1..]);
      assert r == [s[0]] + tail;
      forall k | 0 < k < |r|
        ensures !Less(r[k].name, s[0].name)
      {
        assert r[k] in multiset(tail);
        assert r[k] == p || r[k] in s[1..];
      }
    } else if s != [] {
      forall k | 0 <= k < |s|
        ensures !Less(s[k].name, p.name)
      {
        if Less(s[k].name, p.name) {
          LessTransitive(s[k].name, p.name, s[0].name);
          LessIrreflexive(s[0].name);
        }
      }
    }
  }

  /** After `Sort`, names never decrease along the object. */
  lemma {:induction false} InsertionSortSorts(ps: seq<Property>)
    ensures Sorted(InsertionSort(ps))
    decreases |ps|
  {
    if ps != [] {
      InsertionSortSorts(ps[..|ps| - 1]);
      InsertKeepsSorted(ps[|ps| - 1], InsertionSort(ps[..|ps| - 1]));
    }
  }

  /** A property that no name in `s` exceeds goes to the end. */
  lemma {:induction false} InsertAtEnd(p: Property, s: seq<Property>)
    requires forall i :: 0 <= i < |s| ==> !Less(p.name, s[i].name)
    ensures Insert(p, s) == s + [p]
    decreases |s|
  {
    if s != [] {
      InsertAtEnd(p, s[1..]);
      assert s + [p] == [s[0]] + (s[1..] + [p]);
    }
  }

  /** Sorting properties that are already in order changes nothing. */
  lemma {:induction false} SortedIsFixed(s: seq<Property>)
    requires Sorted(s)
    ensures InsertionSort(s) == s
    decreases |s|
  {
    if s != [] {
      var init := s[..|s| - 1];
      SortedIsFixed(init);
      InsertAtEnd(s[|s| - 1], init);
      assert init + [s[|s| - 1]] == s;
    }
  }

  /** Inserting a property whose name is new keeps the names distinct. */
  lemma {:induction false} InsertKeepsUnique(p: Property, s: seq<Property>)
    requires UniqueNames(s) && forall i :: 0 <= i < |s| ==> s[i].name != p.name
    ensures UniqueNames(Insert(p, s))
    decreases |s|
  {
    if s != [] && !Less(p.name, s[0].name) {
      InsertKeepsUnique(p, s[1..]);
      var tail := Insert(p, s[1..]);
      forall k | 0 <= k < |tail|
        ensures tail[k].name != s[0].name
      {
        assert tail[k] in multiset(tail);
        assert tail[k] == p || tail[k] in s[1..];
      }
    }
  }

  /** Sorting keeps distinct names distinct. */
  lemma {:induction false} InsertionSortKeepsUnique(ps: seq<Property>)
    requires UniqueNames(ps)
    ensures UniqueNames(InsertionSort(ps))
    decreases |ps|
  {
    if ps != [] {
      var init := ps[..|ps| - 1];
      var sortedInit := InsertionSort(init);
      InsertionSortKeepsUnique(init);
      forall i | 0 <= i < |sortedInit|
        ensures sortedInit[i].name != ps[|ps| - 1].name
      {
        assert sortedInit[i] in multiset(init);
      }
      InsertKeepsUnique(ps[|ps| - 1], sortedInit);
    }
  }

  /** The object's keys come out in ascending order: strictly ascending when
      the names are distinct, as they are in a JSON object. */
  lemma SortOrdersKeys(ps: seq<Property>)
    ensures Sorted(SortProps(ps))
    ensures UniqueNames(ps) ==> StrictlySorted(SortProps(ps))
  {
    var r := SortProps(ps);
    InsertionSortSorts(SortValues(ps));
    if UniqueNames(ps) {
      InsertionSortKeepsUnique(SortValues(ps));
      forall i, k | 0 <= i < k < |r|
        ensures Less(r[i].name, r[k].name)
      {
        LessTotal(r[i].name, r[k].name);
      }
    }
  }

  /** `Sort` is a permutation: the same names, each with its value sorted,
      none added or dropped. */
  lemma SortKeepsPairs(ps: seq<Property>)
    ensures |SortProps(ps)| == |ps|
    ensures multiset(SortProps(ps)) == multiset(SortValues(ps))
  {
    assert |SortProps(ps)| == |multiset(SortProps(ps))| == |multiset(SortValues(ps))|;
  }

  /** Recursion goes only through property values: an array, and every object
      inside it, keeps its order. */
  lemma ArraysKeepOrder(items: seq<Json>)
    ensures SortValue(JArray(items)) == JArray(items)
  {
  }

  /** Sorting a sorted tree changes nothing. */
  lemma {:induction false} SortValueIdempotent(v: Json)
    ensures SortValue(SortValue(v)) == SortValue(v)
    decreases v, 1
  {
    if v.JObject? {
      SortPropsIdempotent(v.props);
    }
  }

  lemma {:induction false} SortPropsIdempotent(ps: seq<Property>)
    ensures SortProps(SortProps(ps)) == SortProps(ps)
    decreases ps, 0
  {
    var sv := SortValues(ps);
    var q := SortProps(ps);
    forall i | 0 <= i < |q|
      ensures SortValue(q[i].value) == q[i].value
    {
      assert q[i] in multiset(sv);
      var j :| 0 <= j < |sv| && sv[j] == q[i];
      assert ps[j] in ps;
      SortValueIdempotent(ps[j].value);
    }
    assert SortValues(q) == q;
    InsertionSortSorts(sv);
    SortedIsFixed(q);
  }

  /** Removing the `k`-th property removes one occurrence of it. */
  lemma RemoveAt(s: seq<Property>, k: nat)
    requires k < |s|
    ensures multiset(s[..k] + s[k + 1..]) == multiset(s) - multiset{s[k]}
  {
    assert s == s[..k] + [s[k]] + s[k + 1..];
  }

  /** Sorting the values of permuted properties gives permuted properties. */
  lemma {:induction false} SortValuesPermutation(a: seq<Property>, b: seq<Property>)
    requires multiset(a) == multiset(b)
    ensures multiset(SortValues(a)) == multiset(SortValues(b))
    decreases |a|
  {
    if a == [] {
      assert |b| == |multiset(b)| == 0;
    } else {
      var x := a[0];
      assert x in multiset(b);
      var k :| 0 <= k < |b| && b[k] == x;
      var before, after := b[..k], b[k + 1..];
      DropFirst(a);
      RemoveAt(b, k);
      SortValuesPermutation(a[1..], before + after);
      var p, s1, s2 := SortProperty(x), SortValues(before), SortValues(after);
      SplitAt(b, k);
      SortValuesAppend(before, [x] + after);
      SortValuesAppend([x], after);
      SortValuesAppend(before, after);
      assert SortValues([x]) == [p];
      PermutedAround(SortValues(a), SortValues(a[1..]), SortValues(b), s1, s2, p);
    }
  }

  lemma SplitAt(b: seq<Property>, k: nat)
    requires k < |b|
    ensures b == b[..k] + ([b[k]] + b[k + 1..])
  {
  }

  /** `[p] + t` and `s1 + [p] + s2` hold the same properties when `t` holds
      those of `s1 + s2`. */
  lemma PermutedAround(sa: seq<Property>, t: seq<Property>, sb: seq<Property>,
                       s1: seq<Property>, s2: seq<Property>, p: Property)
    requires sa == [p] + t && sb == s1 + ([p] + s2) && multiset(t) == multiset(s1 + s2)
    ensures multiset(sa) == multiset(sb)
  {
  }

  /** Sorting values distributes over joining property lists. */
  lemma SortValuesAppend(x: seq<Property>, y: seq<Property>)
    ensures SortValues(x + y) == SortValues(x) + SortValues(y)
  {
    var l, r := SortValues(x + y), SortValues(x) + SortValues(y);
    forall i | 0 <= i < |l|
      ensures l[i] == r[i]
    {
      if i < |x| {
        assert (x + y)[i] == x[i];
      } else {
        assert (x + y)[i] == y[i - |x|];
      }
    }
  }

  lemma SameHeadSameTail(r1: seq<Property>, r2: seq<Property>)
    requires r1 != [] && r2 != [] && r1[0] == r2[0] && r1[1..] == r2[1..]
    ensures r1 == r2
  {
    assert r1 == [r1[0]] + r1[1..] && r2 == [r2[0]] + r2[1..];
  }

  lemma StrictlySortedTail(s: seq<Property>)
    requires s != [] && StrictlySorted(s)
    ensures StrictlySorted(s[1..])
  {
  }

  /** Two strictly sorted lists with the same properties are the same list. */
  lemma {:induction false} StrictlySortedUnique(r1: seq<Property>, r2: seq<Property>)
    requires StrictlySorted(r1) && StrictlySorted(r2) && multiset(r1) == multiset(r2)
    ensures r1 == r2
    decreases |r1|
  {
    if r1 == [] {
      assert |r2| == |multiset(r2)| == 0;
    } else {
      SameFirst(r1, r2);
      DropFirst(r1);
      DropFirst(r2);
      StrictlySortedTail(r1);
      StrictlySortedTail(r2);
      StrictlySortedUnique(r1[1..], r2[1..]);
      SameHeadSameTail(r1, r2);
    }
  }

  /** Strictly sorted lists with the same properties start with the same one:
      each first property is in the other list, and neither can come after
      the other's first. */
  lemma SameFirst(r1: seq<Property>, r2: seq<Property>)
    requires r1 != [] && StrictlySorted(r1) && StrictlySorted(r2) && multiset(r1) == multiset(r2)
    ensures r2 != [] && r1[0] == r2[0]
  {
    assert r1[0] in multiset(r2);
    var k :| 0 <= k < |r2| && r2[k] == r1[0];
    assert r2[0] in multiset(r1);
    var m :| 0 <= m < |r1| && r1[m] == r2[0];
    if k > 0 && m > 0 {
      LessAsymmetric(r2[0].name, r1[0].name);
      assert false;
    }
  }

  /** Dropping the first property removes one occurrence of it. */
  lemma DropFirst(s: seq<Property>)
    requires s != []
    ensures multiset(s[1..]) == multiset(s) - multiset{s[0]}
  {
    assert s == [s[0]] + s[1..];
  }

  /** Two objects that differ only in the order of their keys sort to the
      same tree. */
  lemma SortIgnoresKeyOrder(ps1: seq<Property>, ps2: seq<Property>)
    requires multiset(ps1) == multiset(ps2) && UniqueNames(ps1) && UniqueNames(ps2)
    ensures SortProps(ps1) == SortProps(ps2)
  {
    SortValuesPermutation(ps1, ps2);
    SortOrdersKeys(ps1);
    SortOrdersKeys(ps2);
    StrictlySortedUnique(SortProps(ps1), SortProps(ps2));
  }

  /** `j1` and `j2` differ at most in the order of the keys of their objects,
      at any depth reached through property values. Arrays, and everything
      inside them, must be equal: sorting never enters an array. */
  ghost predicate KeyPermuted(j1: Json, j2: Json)
    decreases j1, 2
  {
    if j1.JObject? && j2.JObject? then PropsPermuted(j1.props, j2.props) else j1 == j2
  }

  /** Two objects' properties: distinct names, the same names, and values
      under equal names that differ at most in key order. */
  ghost predicate PropsPermuted(ps1: seq<Property>, ps2: seq<Property>)
    decreases ps1, 1
  {
    && UniqueNames(ps1) && UniqueNames(ps2)
    && (forall i :: 0 <= i < |ps1| ==> HasPartner(ps1, i, ps2))
    && (forall k :: 0 <= k < |ps2| ==> HasPartnerBack(ps1, ps2, k))
  }

  /** The `i`-th property of `ps1` has a property of the same name in `ps2`
      whose value differs from its own at most in key order. */
  ghost predicate HasPartner(ps1: seq<Property>, i: nat, ps2: seq<Property>)
    requires i < |ps1|
    decreases ps1, 0
  {
    exists k :: 0 <= k < |ps2| && ps2[k].name == ps1[i].name && KeyPermuted(ps1[i].value, ps2[k].value)
  }

  /** The `k`-th property of `ps2` has a property of the same name in `ps1`
      whose value differs from its own at most in key order. */
  ghost predicate HasPartnerBack(ps1: seq<Property>, ps2: seq<Property>, k: nat)
    requires k < |ps2|
    decreases ps1, 0
  {
    exists i :: 0 <= i < |ps1| && ps1[i].name == ps2[k].name && KeyPermuted(ps1[i].value, ps2[k].value)
  }

  /** Two trees that differ only in the key order of their objects, at any
      depth, sort to the same tree. */
  lemma {:induction false} SortIgnoresNestedKeyOrder(j1: Json, j2: Json)
    requires KeyPermuted(j1, j2)
    ensures SortValue(j1) == SortValue(j2)
    decreases j1, 2
  {
    if j1.JObject? && j2.JObject? {
      PropsPermutedSortEqual(j1.props, j2.props);
    }
  }

  lemma {:induction false} PropsPermutedSortEqual(ps1: seq<Property>, ps2: seq<Property>)
    requires PropsPermuted(ps1, ps2)
    ensures SortProps(ps1) == SortProps(ps2)
    decreases ps1, 1
  {
    var r1, r2 := SortProps(ps1), SortProps(ps2);
    var sv1, sv2 := SortValues(ps1), SortValues(ps2);
    SortOrdersKeys(ps1);
    SortOrdersKeys(ps2);
    forall x
      ensures x in r1 <==> x in r2
    {
      SortedMembers(ps1, x);
      SortedMembers(ps2, x);
      if x in sv1 {
        var i :| 0 <= i < |sv1| && sv1[i] == x;
        CarriedOver(ps1, i, ps2);
      }
      if x in sv2 {
        var k :| 0 <= k < |sv2| && sv2[k] == x;
        CarriedBack(ps1, ps2, k);
      }
    }
    StrictlySortedSameElements(r1, r2);
  }

  /** Sorting the properties keeps exactly the value-sorted properties. */
  lemma SortedMembers(ps: seq<Property>, x: Property)
    ensures x in SortProps(ps) <==> x in SortValues(ps)
  {
    SortKeepsPairs(ps);
    assert x in SortProps(ps) <==> x in multiset(SortProps(ps));
    assert x in SortValues(ps) <==> x in multiset(SortValues(ps));
  }

  /** A value-sorted property of one object is one of the other's. */
  lemma {:induction false} CarriedOver(ps1: seq<Property>, i: nat, ps2: seq<Property>)
    requires i < |ps1| && HasPartner(ps1, i, ps2)
    ensures SortValues(ps1)[i] in SortValues(ps2)
    decreases ps1, 0
  {
    var k :| 0 <= k < |ps2| && ps2[k].name == ps1[i].name && KeyPermuted(ps1[i].value, ps2[k].value);
    assert ps1[i] in ps1;
    SortIgnoresNestedKeyOrder(ps1[i].value, ps2[k].value);
    assert SortValues(ps2)[k] == SortValues(ps1)[i];
  }

  lemma {:induction false} CarriedBack(ps1: seq<Property>, ps2: seq<Property>, k: nat)
    requires k < |ps2| && HasPartnerBack(ps1, ps2, k)
    ensures SortValues(ps2)[k] in SortValues(ps1)
    decreases ps1, 0
  {
    var i :| 0 <= i < |ps1| && ps1[i].name == ps2[k].name && KeyPermuted(ps1[i].value, ps2[k].value);
    assert ps1[i] in ps1;
    SortIgnoresNestedKeyOrder(ps1[i].value, ps2[k].value);
    assert SortValues(ps1)[i] == SortValues(ps2)[k];
  }

  /** Two strictly sorted lists with the same elements are the same list. */
  lemma {:induction false} StrictlySortedSameElements(r1: seq<Property>, r2: seq<Property>)
    requires StrictlySorted(r1) && StrictlySorted(r2)
    requires forall x :: x in r1 <==> x in r2
    ensures r1 == r2
    decreases |r1|
  {
    if r2 != [] {
      assert r2[0] in r1;
    }
    if r1 != [] {
      assert r1[0] in r1;
      var k :| 0 <= k < |r2| && r2[k] == r1[0];
      assert r2[0] in r2;
      var m :| 0 <= m < |r1| && r1[m] == r2[0];
      if k > 0 && m > 0 {
        LessAsymmetric(r2[0].name, r1[0].name);
        assert false;
      }
      assert r1[0] == r2[0];
      forall x ensures x in r1[1..] <==> x in r2[1..] {
        TailMembers(r1, x);
        TailMembers(r2, x);
      }
      StrictlySortedTail(r1);
      StrictlySortedTail(r2);
      StrictlySortedSameElements(r1[1..], r2[1..]);
      SameHeadSameTail(r1, r2);
    }
  }

  /** In a strictly sorted list, the elements after the first are the
      elements other than the first. */
  lemma TailMembers(r: seq<Property>, x: Property)
    requires r != [] && StrictlySorted(r)
    ensures x in r[1..] <==> x in r && x != r[0]
  {
    if x in r[1..] {
      var i :| 0 <= i < |r[1..]| && r[1..][i] == x;
      assert r[i + 1] == x;
      LessIrreflexive(r[0].name);
    }
    if x in r && x != r[0] {
      var i :| 0 <= i < |r| && r[i] == x;
      assert r[1..][i - 1] == x;
    }
  }

  /** Every object reached through property values has its keys in ascending
      order; objects inside arrays are not looked at. */
  predicate DeeplySorted(j: Json)
    decreases j
  {
    j.JObject? ==> Sorted(j.props) && forall i :: 0 <= i < |j.props| ==> DeeplySorted(j.props[i].value)
  }

  /** After `Sort`, every object reached through property values, at any
      depth, has its keys in ascending order. */
  lemma {:induction false} SortSortsDeeply(v: Json)
    ensures DeeplySorted(SortValue(v))
    decreases v, 1
  {
    if v.JObject? {
      var r := SortProps(v.props);
      SortOrdersKeys(v.props);
      forall i | 0 <= i < |r|
        ensures DeeplySorted(r[i].value)
      {
        SortedPropertySortedDeeply(v.props, r[i]);
      }
    }
  }

  lemma {:induction false} SortedPropertySortedDeeply(ps: seq<Property>, x: Property)
    requires x in SortProps(ps)
    ensures DeeplySorted(x.value)
    decreases ps, 0
  {
    var sv := SortValues(ps);
    SortedMembers(ps, x);
    var j :| 0 <= j < |sv| && sv[j] == x;
    assert ps[j] in ps;
    SortSortsDeeply(ps[j].value);
  }

  /** `DefaultJsonDiffFormatter.Format`: the diff printed as it is, or the
      empty text when there is no diff. */
  function DefaultFormat(diff: Option<Json>, render: Json -> string): string {
    match diff
    case None => ""
    case Some(j) => render(j)
  }

  /** `AlphabeticallySortedJsonDiffFormatter.Format`: no diff gives the empty
      text; an object is printed sorted; anything else is printed as it is. */
  function Format(diff: Option<Json>, render: Json -> string): string {
    match diff
    case None => ""
    case Some(j) => if j.JObject? then render(SortValue(j)) else render(j)
  }

  /** The sorted formatter prints what the default formatter prints for the
      sorted tree, and exactly what it prints when there is no diff or the
      diff is not an object. */
  lemma FormatIsDefaultOfSorted(diff: Option<Json>, render: Json -> string)
    ensures diff.Some? ==> Format(diff, render) == DefaultFormat(Some(SortValue(diff.value)), render)
    ensures diff.None? || !diff.value.JObject? ==> Format(diff, render) == DefaultFormat(diff, render)
    ensures diff.None? ==> Format(diff, render) == ""
  {
  }

  /** Formatting a diff whose objects are already sorted prints it as the
      default formatter does. */
  lemma FormatSortedIsDefault(j: Json, render: Json -> string)
    ensures Format(Some(SortValue(j)), render) == DefaultFormat(Some(SortValue(j)), render)
  {
    SortValueIdempotent(j);
  }
}
