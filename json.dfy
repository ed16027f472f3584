/** The JSON tree the scrubbers and formatters work on (`JToken` and its
    kinds), addresses of nodes inside it, and reading and replacing the node
    at an address.

    Parsing and printing belong to the JSON library and are not modelled;
    the operations that need them take them as parameters.
 */
module JsonTree {
  import opened Base

  /** A JSON node. `JValue` covers the four scalar kinds; numbers are integers. */
  datatype Json =
    | JNull
    | JBool(b: bool)
    | JNumber(n: int)
    | JString(s: string)
    | JArray(items: seq<Json>)
    | JObject(props: seq<Property>)
  {
    predicate IsValue() {
      JNull? || JBool? || JNumber? || JString?
    }
  }

  /** `JProperty`: a name and its value. */
  datatype Property = Property(name: string, value: Json)

  /** One step from a node to a child: an array index or a property name. */
  datatype Step = Index(i: nat) | Key(name: string)

  /** The path from the root to a node. */
  type Address = seq<Step>

  /** Position of the first property called `name`. */
  function FindKey(props: seq<Property>, name: string): (r: Option<nat>)
    ensures r.Some? ==> r.value < |props| && props[r.value].name == name
    ensures r.Some? ==> forall k :: 0 <= k < r.value ==> props[k].name != name
    ensures r.None? ==> forall k :: 0 <= k < |props| ==> props[k].name != name
  {
    if props == [] then None
    else if props[0].name == name then Some(0)
    else match FindKey(props[1..], name)
      case None => None
      case Some(k) => Some(k + 1)
  }

  /** The child one step below `j`, if there is one. */
  function Child(j: Json, step: Step): (r: Option<Json>)
    ensures r.Some? ==> r.value < j
  {
    if j.JArray? && step.Index? then
      if step.i < |j.items| then Some(j.items[step.i]) else None
    else if j.JObject? && step.Key? then
      match FindKey(j.props, step.name)
      case None => None
      case Some(k) => assert j.props[k] in j.props; Some(j.props[k].value)
    else None
  }

  /** The node at `addr`, if the address leads anywhere. */
  function Get(j: Json, addr: Address): Option<Json>
    decreases |addr|
  {
    if addr == [] then Some(j)
    else match Child(j, addr[0])
      case None => None
      case Some(c) => Get(c, addr[1..])
  }

  /** `j` with the child one step below it replaced by `v`; unchanged when there
      is no such child. */
  function SetChild(j: Json, step: Step, v: Json): (r: Json)
    ensures Child(j, step).Some? ==> Child(r, step) == Some(v)
    ensures Child(j, step).None? ==> r == j
  {
    if j.JArray? && step.Index? then
      if step.i < |j.items| then JArray(j.items[step.i := v]) else j
    else if j.JObject? && step.Key? then
      match FindKey(j.props, step.name)
      case None => j
      case Some(k) =>
        var props' := j.props[k := Property(step.name, v)];
        assert FindKey(props', step.name) == Some(k) by {
          FindKeyFirst(props', step.name, k);
        }
        JObject(props')
    else j
  }

  /** A property that is the first one with its name is what `FindKey` finds. */
  lemma FindKeyFirst(props: seq<Property>, name: string, k: nat)
    requires k < |props| && props[k].name == name
    requires forall m :: 0 <= m < k ==> props[m].name != name
    ensures FindKey(props, name) == Some(k)
  {
    if props[0].name != name {
      FindKeyFirst(props[1..], name, k - 1);
    }
  }

  /** `j` with the node at `addr` replaced by `v` (`JToken.Replace`); unchanged
      when the address leads nowhere. */
  function Put(j: Json, addr: Address, v: Json): Json
    decreases |addr|
  {
    if addr == [] then v
    else match Child(j, addr[0])
      case None => j
      case Some(c) => SetChild(j, addr[0], Put(c, addr[1..], v))
  }

  /** After a replacement, the address leads to the new node. */
  lemma {:induction false} GetAfterPut(j: Json, addr: Address, v: Json)
    requires Get(j, addr).Some?
    ensures Get(Put(j, addr, v), addr) == Some(v)
    decreases |addr|
  {
    if addr != [] {
      var c := Child(j, addr[0]).value;
      GetAfterPut(c, addr[1..], v);
    }
  }

  /** Replacing a node with itself changes nothing. */
  lemma {:induction false} PutWhatIsThere(j: Json, addr: Address)
    requires Get(j, addr).Some?
    ensures Put(j, addr, Get(j, addr).value) == j
    decreases |addr|
  {
    if addr != [] {
      var c := Child(j, addr[0]).value;
      PutWhatIsThere(c, addr[1..]);
      SetChildWhatIsThere(j, addr[0]);
    }
  }

  lemma SetChildWhatIsThere(j: Json, step: Step)
    requires Child(j, step).Some?
    ensures SetChild(j, step, Child(j, step).value) == j
  {
    if j.JArray? {
      assert j.items[step.i := j.items[step.i]] == j.items;
    } else {
      var k := FindKey(j.props, step.name).value;
      assert j.props[k := Property(step.name, j.props[k].value)] == j.props;
    }
  }

  /** A replacement at an address that leads nowhere changes nothing. */
  lemma {:induction false} PutNowhere(j: Json, addr: Address, v: Json)
    requires Get(j, addr).None?
    ensures Put(j, addr, v) == j
    decreases |addr|
  {
    if addr != [] && Child(j, addr[0]).Some? {
      var c := Child(j, addr[0]).value;
      PutNowhere(c, addr[1..], v);
      SetChildWhatIsThere(j, addr[0]);
    }
  }

  /** Neither address is a prefix of the other: they name disjoint subtrees. */
  predicate Apart(a: Address, b: Address) {
    exists k :: 0 <= k < |a| && k < |b| && a[..k] == b[..k] && a[k] != b[k]
  }

  /** Two different steps from one node lead to different children, and
      replacing one leaves the other as it was. */
  lemma SetChildKeepsSibling(j: Json, s: Step, t: Step, v: Json)
    requires s != t
    ensures Child(SetChild(j, s, v), t) == Child(j, t)
  {
    if j.JObject? && s.Key? && t.Key? && FindKey(j.props, s.name).Some? {
      var k := FindKey(j.props, s.name).value;
      var props' := j.props[k := Property(s.name, v)];
      assert forall q :: 0 <= q < |props'| ==> (props'[q].name == t.name <==> j.props[q].name == t.name);
      match FindKey(j.props, t.name)
      case None =>
      case Some(km) =>
        FindKeyFirst(props', t.name, km);
    }
  }

  /** Replacing the node at `a` leaves every node apart from `a` as it was. */
  lemma {:induction false} PutKeepsApart(j: Json, a: Address, b: Address, v: Json)
    requires Apart(a, b)
    ensures Get(Put(j, a, v), b) == Get(j, b)
    decreases |a|
  {
    var k :| 0 <= k < |a| && k < |b| && a[..k] == b[..k] && a[k] != b[k];
    match Child(j, a[0])
    case None =>
    case Some(c) =>
      var c' := Put(c, a[1..], v);
      if k == 0 {
        SetChildKeepsSibling(j, a[0], b[0], c');
      } else {
        assert a[0] == b[0] by { assert a[..k][0] == b[..k][0]; }
        assert a[1..][..k - 1] == a[..k][1..] && b[1..][..k - 1] == b[..k][1..];
        PutKeepsApart(c, a[1..], b[1..], v);
      }
  }
}
