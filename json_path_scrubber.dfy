/** `JsonPathScrubber`: parses the text, and for every ignored path in turn
    overwrites each node the path selects with the sentinel `_IGNORED_VALUE_`,
    the way each kind of node allows, then prints the tree again.

    The JSON library's parser, printer and JSONPath engine are parameters:
    `parse` returns `None` where the parser throws, and `select` gives the
    addresses a path selects in a tree, or `None` where the engine throws
    because it cannot parse the path.
 */
module JsonPathScrubbing {
  import opened Base
  import opened Text
  import opened JsonTree

  const IgnoredValue: string := "_IGNORED_VALUE_"

  /** The message `JToken.Replace` throws with when the token has no parent. */
  const ParentMissing: string := "The parent is missing."

  /** `JToken.Parse`: `None` for malformed text. */
  type Parser = string -> Option<Json>

  /** `SelectTokens`: the addresses of the nodes a path selects, in order;
      `None` for a path the engine rejects. */
  type Selector = (Json, string) -> Option<seq<Address>>

  /** `ToString(Formatting.Indented)`. */
  type Printer = Json -> string

  /** What a selected node is turned into: a value takes the sentinel, an
      array is cleared and given the sentinel as its one item, and an object is
      replaced by the sentinel, which fails for the root, as it has no parent. */
  function MaskNode(node: Json, isRoot: bool): Result<Json> {
    match node
    case JArray(_) => Ok(JArray([JString(IgnoredValue)]))
    case JObject(_) => if isRoot then Err(InvalidOperation(ParentMissing)) else Ok(JString(IgnoredValue))
    case _ => Ok(JString(IgnoredValue))
  }

  /** The tree with the node at `addr` masked; unchanged when the address
      leads nowhere in the current tree. */
  function MaskAt(j: Json, addr: Address): Result<Json> {
    match Get(j, addr)
    case None => Ok(j)
    case Some(node) =>
      match MaskNode(node, addr == [])
      case Err(e) => Err(e)
      case Ok(m) => Ok(Put(j, addr, m))
  }

  /** The tree with the nodes at `addrs` masked one after the other. */
  function MaskAll(j: Json, addrs: seq<Address>): Result<Json>
    decreases |addrs|
  {
    if addrs == [] then Ok(j)
    else match MaskAt(j, addrs[0])
      case Err(e) => Err(e)
      case Ok(j') => MaskAll(j', addrs[1..])
  }

  /** The tree after every path in turn, each selecting in the tree as the
      earlier paths left it; a path the engine rejects ends the scrub. */
  function MaskPaths(j: Json, paths: seq<string>, select: Selector): Result<Json>
    decreases |paths|
  {
    if paths == [] then Ok(j)
    else match select(j, paths[0])
      case None => Err(PathError(paths[0]))
      case Some(addrs) =>
        match MaskAll(j, addrs)
        case Err(e) => Err(e)
        case Ok(j') => MaskPaths(j', paths[1..], select)
  }

  /** Continues masking from a result that may already be a failure. */
  function ThenPaths(r: Result<Json>, paths: seq<string>, select: Selector): Result<Json> {
    match r
    case Err(e) => Err(e)
    case Ok(j) => MaskPaths(j, paths, select)
  }

  /** `Scrub`: blank text gives the empty text without parsing; otherwise the
      parsed tree, masked when there are paths, printed again. */
  function Scrubbed(input: string, paths: seq<string>, parse: Parser, select: Selector, render: Printer): Result<string> {
    if IsBlank(input) then Ok("")
    else match parse(input)
      case None => Err(ParseError)
      case Some(j) =>
        if |paths| > 0 then
          match MaskPaths(j, paths, select)
          case Err(e) => Err(e)
          case Ok(masked) => Ok(render(masked))
        else Ok(render(j))
  }

  /** `JsonPathScrubber`: the ignored paths it was built with. */
  class JsonPathScrubber {
    const ignoredPaths: seq<string>

    constructor (ignoredPaths: seq<string>)
      ensures this.ignoredPaths == ignoredPaths
    {
      this.ignoredPaths := ignoredPaths;
    }

    /** `Scrub`: the tree is edited in place path by path and node by node. */
    method Scrub(input: string, parse: Parser, select: Selector, render: Printer) returns (r: Result<string>)
      ensures r == Scrubbed(input, ignoredPaths, parse, select, render)
    {
      if IsBlank(input) {
        return Ok("");
      }
      var parsed := parse(input);
      if parsed.None? {
        return Err(ParseError);
      }
      var json := parsed.value;
      if |ignoredPaths| > 0 {
        var p := 0;
        while p < |ignoredPaths|
          invariant p <= |ignoredPaths|
          invariant MaskPaths(json, ignoredPaths[p..], select) == MaskPaths(parsed.value, ignoredPaths, select)
        {
          assert ignoredPaths[p..][1..] == ignoredPaths[p + 1..];
          var selected := select(json, ignoredPaths[p]);
          if selected.None? {
            return Err(PathError(ignoredPaths[p]));
          }
          var addrs := selected.value;
          ghost var start := json;
          var t := 0;
          while t < |addrs|
            invariant t <= |addrs|
            invariant MaskAll(json, addrs[t..]) == MaskAll(start, addrs)
          {
            assert addrs[t..][1..] == addrs[t + 1..];
            var addr := addrs[t];
            var node := Get(json, addr);
            if node.Some? {
              match node.value
              case JArray(_) =>
                json := Put(json, addr, JArray([JString(IgnoredValue)]));
              case JObject(_) =>
                if addr == [] {
                  return Err(InvalidOperation(ParentMissing));
                }
                json := Put(json, addr, JString(IgnoredValue));
              case _ =>
                json := Put(json, addr, JString(IgnoredValue));
            }
            t := t + 1;
          }
          assert addrs[t..] == [];
          p := p + 1;
        }
        assert ignoredPaths[p..] == [];
      }
      r := Ok(render(json));
    }
  }

  /** Blank text gives the empty text, whatever the parser would say. */
  lemma BlankIsEmpty(input: string, paths: seq<string>, parse: Parser, select: Selector, render: Printer)
    requires IsBlank(input)
    ensures Scrubbed(input, paths, parse, select, render) == Ok("")
    ensures forall other: Parser :: Scrubbed(input, paths, other, select, render) == Ok("")
  {
  }

  /** Malformed text fails with the parser's error. */
  lemma MalformedFails(input: string, paths: seq<string>, parse: Parser, select: Selector, render: Printer)
    requires !IsBlank(input) && parse(input).None?
    ensures Scrubbed(input, paths, parse, select, render) == Err(ParseError)
  {
  }

  /** With no paths the tree is printed again as parsed. */
  lemma NoPathsReprints(input: string, parse: Parser, select: Selector, render: Printer)
    requires !IsBlank(input) && parse(input).Some?
    ensures Scrubbed(input, [], parse, select, render) == Ok(render(parse(input).value))
  {
  }

  /** A selected value becomes the sentinel string. */
  lemma MaskedValue(j: Json, addr: Address)
    requires Get(j, addr).Some? && Get(j, addr).value.IsValue()
    ensures MaskAt(j, addr).Ok?
    ensures Get(MaskAt(j, addr).value, addr) == Some(JString(IgnoredValue))
  {
    GetAfterPut(j, addr, JString(IgnoredValue));
  }

  /** A selected array becomes exactly the one-item array of the sentinel. */
  lemma MaskedArray(j: Json, addr: Address)
    requires Get(j, addr).Some? && Get(j, addr).value.JArray?
    ensures MaskAt(j, addr).Ok?
    ensures Get(MaskAt(j, addr).value, addr) == Some(JArray([JString(IgnoredValue)]))
  {
    GetAfterPut(j, addr, JArray([JString(IgnoredValue)]));
  }

  /** A selected object below the root is replaced by the sentinel string; the
      root object cannot be replaced. */
  lemma MaskedObject(j: Json, addr: Address)
    requires Get(j, addr).Some? && Get(j, addr).value.JObject?
    ensures addr == [] <==> MaskAt(j, addr).Err?
    ensures addr == [] ==> MaskAt(j, addr) == Err(InvalidOperation(ParentMissing))
    ensures addr != [] ==> Get(MaskAt(j, addr).value, addr) == Some(JString(IgnoredValue))
  {
    if addr != [] {
      GetAfterPut(j, addr, JString(IgnoredValue));
    }
  }

  /** Masking one node leaves every node apart from it as it was. */
  lemma MaskAtKeepsApart(j: Json, addr: Address, other: Address)
    requires Apart(addr, other) && MaskAt(j, addr).Ok?
    ensures Get(MaskAt(j, addr).value, other) == Get(j, other)
  {
    if Get(j, addr).Some? {
      var m := MaskNode(Get(j, addr).value, addr == []).value;
      PutKeepsApart(j, addr, other, m);
    }
  }

  /** Masking a list of nodes leaves every node apart from all of them as it was. */
  lemma {:induction false} MaskAllKeepsApart(j: Json, addrs: seq<Address>, other: Address)
    requires forall k :: 0 <= k < |addrs| ==> Apart(addrs[k], other)
    requires MaskAll(j, addrs).Ok?
    ensures Get(MaskAll(j, addrs).value, other) == Get(j, other)
    decreases |addrs|
  {
    if addrs != [] {
      var j' := MaskAt(j, addrs[0]).value;
      MaskAtKeepsApart(j, addrs[0], other);
      MaskAllKeepsApart(j', addrs[1..], other);
    }
  }

  /** Masking the same node twice is masking it once. */
  lemma MaskAtTwice(j: Json, addr: Address)
    requires MaskAt(j, addr).Ok?
    ensures MaskAt(MaskAt(j, addr).value, addr) == MaskAt(j, addr)
  {
    match Get(j, addr)
    case None =>
    case Some(node) =>
      var m := MaskNode(node, addr == []).value;
      var j' := Put(j, addr, m);
      GetAfterPut(j, addr, m);
      assert MaskNode(m, addr == []) == Ok(m);
      GetAfterPutTwice(j, addr, m);
  }

  /** Replacing a node twice with the same node is replacing it once. */
  lemma {:induction false} GetAfterPutTwice(j: Json, addr: Address, v: Json)
    requires Get(j, addr).Some?
    ensures Put(Put(j, addr, v), addr, v) == Put(j, addr, v)
  {
    GetAfterPut(j, addr, v);
    PutWhatIsThere(Put(j, addr, v), addr);
  }

  /** A path the engine rejects in the tree it is applied to fails the scrub
      with that path's error. */
  lemma RejectedPathFails(input: string, paths: seq<string>, parse: Parser, select: Selector, render: Printer)
    requires !IsBlank(input) && parse(input).Some?
    requires |paths| > 0 && select(parse(input).value, paths[0]).None?
    ensures Scrubbed(input, paths, parse, select, render) == Err(PathError(paths[0]))
  {
  }

  /** A path the engine rejects whatever the tree, such as a malformed one,
      makes every scrub that lists it fail, wherever it stands in the list. */
  lemma {:induction false} MalformedPathFails(j: Json, paths: seq<string>, bad: string, select: Selector)
    requires bad in paths
    requires forall t: Json :: select(t, bad).None?
    ensures MaskPaths(j, paths, select).Err?
    decreases |paths|
  {
    if paths[0] != bad {
      assert bad in paths[1..] by {
        var k :| 0 <= k < |paths| && paths[k] == bad;
        assert paths[1..][k - 1] == bad;
      }
      match select(j, paths[0])
      case None =>
      case Some(addrs) =>
        match MaskAll(j, addrs)
        case Err(e) =>
        case Ok(j') =>
          MalformedPathFails(j', paths[1..], bad, select);
    }
  }

  /** The paths `p1 + p2` act as `p1` followed by `p2`. */
  lemma {:induction false} PathsInOrder(j: Json, p1: seq<string>, p2: seq<string>, select: Selector)
    ensures MaskPaths(j, p1 + p2, select) == ThenPaths(MaskPaths(j, p1, select), p2, select)
    decreases |p1|
  {
    if p1 == [] {
      assert p1 + p2 == p2;
    } else {
      assert (p1 + p2)[0] == p1[0] && (p1 + p2)[1..] == p1[1..] + p2;
      match select(j, p1[0])
      case None =>
      case Some(addrs) =>
        match MaskAll(j, addrs)
        case Err(e) =>
        case Ok(j') =>
          PathsInOrder(j', p1[1..], p2, select);
    }
  }
}
