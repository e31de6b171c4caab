/**
  What an XML reader hands to its handlers: start tags with their attribute pairs (in
  document order), end tags and character data, and the nesting discipline a
  well-formed document guarantees.
 */
module Xml {

  import opened Wrappers
  import opened Strings

  /** One `(name, value)` pair of a start tag's attribute array. */
  datatype Attribute = Attribute(name: String, value: String)

  datatype Event =
    | Open(name: String, atts: seq<Attribute>)
    | Close
    | Text(data: String)

  function Opens(evs: seq<Event>): nat
  {
    if evs == [] then 0 else (if evs[0].Open? then 1 else 0) + Opens(evs[1..])
  }

  function Closes(evs: seq<Event>): nat
  {
    if evs == [] then 0 else (if evs[0].Close? then 1 else 0) + Closes(evs[1..])
  }

  /** Starting `depth` elements deep, no end tag closes an element that was not opened. */
  predicate NestsFrom(depth: nat, evs: seq<Event>)
    decreases |evs|
  {
    if evs == [] then true
    else match evs[0]
      case Open(_, _) => NestsFrom(depth + 1, evs[1..])
      case Close => depth >= 1 && NestsFrom(depth - 1, evs[1..])
      case Text(_) => NestsFrom(depth, evs[1..])
  }

  /** The value of the last attribute named `name`, if any (the one a last-wins scan keeps). */
  function LastValue(atts: seq<Attribute>, name: String): (r: Option<String>)
    ensures r.Some? ==> exists k :: 0 <= k < |atts| && atts[k] == Attribute(name, r.value)
    ensures r.None? <==> forall k :: 0 <= k < |atts| ==> atts[k].name != name
  {
    if atts == [] then None
    else if atts[|atts| - 1].name == name then Some(atts[|atts| - 1].value)
    else
      var r := LastValue(atts[..|atts| - 1], name);
      assert forall k :: 0 <= k < |atts| - 1 ==> atts[..|atts| - 1][k] == atts[k];
      r
  }

  /** A scan that meets one more attribute keeps its value when the name matches. */
  lemma LastValueSnoc(atts: seq<Attribute>, i: nat, name: String)
    requires i < |atts|
    ensures LastValue(atts[..i + 1], name) == if atts[i].name == name then Some(atts[i].value) else LastValue(atts[..i], name)
  {
    assert atts[..i + 1][..i] == atts[..i];
  }

  /** The value a last-wins scan leaves in a variable initialised to `def`. */
  function ValueOr(atts: seq<Attribute>, name: String, def: String): String
  {
    match LastValue(atts, name) case Some(v) => v case None => def
  }

  /**
    The state stack of a parser that pushes `step(top, name)` for every start tag and
    pops for every end tag; `None` when an end tag would pop the initial state.
   */
  function Replay<S>(step: (S, String) -> S, stack: seq<S>, evs: seq<Event>): (r: Option<seq<S>>)
    requires stack != []
    ensures r.Some? ==> |r.value| >= 1 && r.value[0] == stack[0]
    decreases |evs|
  {
    if evs == [] then Some(stack)
    else match evs[0]
      case Open(name, _) => Replay(step, stack + [step(stack[|stack| - 1], name)], evs[1..])
      case Close => if |stack| <= 1 then None else Replay(step, stack[..|stack| - 1], evs[1..])
      case Text(_) => Replay(step, stack, evs[1..])
  }

  /** One state per open element: over well-nested events the stack never runs out and
      ends `Opens - Closes` deeper than it started. */
  lemma {:induction false} ReplayDepth<S>(step: (S, String) -> S, stack: seq<S>, evs: seq<Event>)
    requires stack != []
    requires NestsFrom(|stack| - 1, evs)
    ensures Replay(step, stack, evs).Some?
    ensures |Replay(step, stack, evs).value| == |stack| + Opens(evs) - Closes(evs)
    decreases |evs|
  {
    if evs != [] {
      match evs[0]
      case Open(name, _) =>
        ReplayDepth(step, stack + [step(stack[|stack| - 1], name)], evs[1..]);
      case Close =>
        ReplayDepth(step, stack[..|stack| - 1], evs[1..]);
      case Text(_) =>
        ReplayDepth(step, stack, evs[1..]);
    }
  }
}
