/** `ComposedScrubber`: a list of scrubbers, some of them absent, applied as a
    left fold. A scrubber may fail (the JSON path scrubber throws on malformed
    input); the first failure ends the fold and is what the composition returns.
 */
module Composition {
  import opened Base

  /** `IScrubber.Scrub`: a text transformation that may fail. */
  type Scrubber = string -> Result<string>

  /** `ComposedScrubber.Scrub`: the present scrubbers in list order, each over
      the previous one's output, starting from `input`. An empty or
      all-absent list returns the input unchanged, and only a present
      scrubber can make the composition fail. */
  function Compose(scrubbers: seq<Option<Scrubber>>, input: string): (r: Result<string>)
    ensures (forall i :: 0 <= i < |scrubbers| ==> scrubbers[i].None?) ==> r == Ok(input)
    ensures r.Err? ==> exists i :: 0 <= i < |scrubbers| && scrubbers[i].Some?
    decreases |scrubbers|
  {
    if scrubbers == [] then Ok(input)
    else
      var tail := scrubbers[1..];
      assert forall i :: 0 <= i < |tail| ==> tail[i] == scrubbers[i + 1];
      match scrubbers[0]
      case None => Compose(tail, input)
      case Some(s) =>
        match s(input)
        case Err(e) => Err(e)
        case Ok(next) => Compose(tail, next)
  }

  /** Continues a fold that may already have failed. */
  function Then(r: Result<string>, scrubbers: seq<Option<Scrubber>>): Result<string> {
    match r
    case Err(e) => Err(e)
    case Ok(v) => Compose(scrubbers, v)
  }

  /** The scrubbers that are present, in order (`OfType<IScrubber>()`). */
  function Present(scrubbers: seq<Option<Scrubber>>): (r: seq<Scrubber>)
    ensures |r| <= |scrubbers|
    ensures forall s :: s in r <==> Some(s) in scrubbers
  {
    if scrubbers == [] then []
    else
      var rest := Present(scrubbers[1..]);
      assert forall o :: o in scrubbers <==> o == scrubbers[0] || o in scrubbers[1..] by {
        assert scrubbers == [scrubbers[0]] + scrubbers[1..];
      }
      match scrubbers[0]
      case None => rest
      case Some(s) => [s] + rest
  }

  /** The plain fold over scrubbers that are all present. */
  function Chain(scrubbers: seq<Scrubber>, input: string): Result<string>
    decreases |scrubbers|
  {
    if scrubbers == [] then Ok(input)
    else match scrubbers[0](input)
      case Err(e) => Err(e)
      case Ok(next) => Chain(scrubbers[1..], next)
  }

  /** Absent entries are skipped: composing the list is folding its present
      scrubbers. */
  lemma {:induction false} AbsentSkipped(scrubbers: seq<Option<Scrubber>>, input: string)
    ensures Compose(scrubbers, input) == Chain(Present(scrubbers), input)
    decreases |scrubbers|
  {
    if scrubbers != [] {
      match scrubbers[0]
      case None =>
        AbsentSkipped(scrubbers[1..], input);
      case Some(s) =>
        var rest := Present(scrubbers[1..]);
        assert Present(scrubbers) == [s] + rest;
        assert ([s] + rest)[1..] == rest;
        match s(input)
        case Err(e) =>
        case Ok(next) =>
          AbsentSkipped(scrubbers[1..], next);
    }
  }

  /** A single present scrubber is that scrubber. */
  lemma SingleIsItself(s: Scrubber, input: string)
    ensures Compose([Some(s)], input) == s(input)
  {
    assert [Some(s)][1..] == [];
  }

  /** Composing `a + b` applies `b`'s composition to the output of `a`'s, and
      a failure in `a` is the result. */
  lemma {:induction false} ConcatIsSequential(a: seq<Option<Scrubber>>, b: seq<Option<Scrubber>>, input: string)
    ensures Compose(a + b, input) == Then(Compose(a, input), b)
    decreases |a|
  {
    if a == [] {
      assert a + b == b;
    } else {
      assert (a + b)[0] == a[0] && (a + b)[1..] == a[1..] + b;
      match a[0]
      case None =>
        ConcatIsSequential(a[1..], b, input);
      case Some(s) =>
        match s(input)
        case Err(e) =>
        case Ok(next) =>
          ConcatIsSequential(a[1..], b, next);
    }
  }

  /** The first failing scrubber ends the fold with its error. */
  lemma FailureStops(s: Scrubber, rest: seq<Option<Scrubber>>, input: string)
    requires s(input).Err?
    ensures Compose([Some(s)] + rest, input) == s(input)
  {
  }
}
