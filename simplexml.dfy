/**
  `Simple_XML_Parser`: a table-driven state machine over XML events. The table maps a
  state to its ordered `(element name, next state)` pairs, its declared attribute
  names and a character-data flag; state `s` lives in slot `s + 1`, so `TAG_INIT` (-1)
  is slot 0. A stack holds one state per open element.
 */
module SimpleXml {

  import opened Wrappers
  import opened Strings
  import opened Xml

  const TagNone: int := -2
  const TagInit: int := -1

  datatype StateDesc = StateDesc(next: seq<(String, int)>, atts: seq<String>, charData: bool)

  const EmptyDesc: StateDesc := StateDesc([], [], false)

  /** The slot `Find(state, false)` reaches in a table of `size` slots. */
  function Slot(state: int, size: nat): (r: Option<nat>)
    ensures r.Some? <==> 0 <= state + 1 < size
    ensures r.Some? ==> r.value == state + 1
  {
    if 0 <= state + 1 < size then Some(state + 1) else None
  }

  /** The state of the first pair named `s`, in insertion order, else `TAG_NONE`. */
  function FirstNext(next: seq<(String, int)>, s: String): (r: int)
  {
    if next == [] then TagNone
    else if next[0].0 == s then next[0].1
    else FirstNext(next[1..], s)
  }

  /** `FirstNext` is the state of the earliest pair named `s`, and `TAG_NONE` when no
      pair has that name. */
  lemma {:induction false} FirstNextFinds(next: seq<(String, int)>, s: String)
    ensures (forall k :: 0 <= k < |next| ==> next[k].0 != s) ==> FirstNext(next, s) == TagNone
    ensures forall k :: 0 <= k < |next| && next[k].0 == s && (forall j :: 0 <= j < k ==> next[j].0 != s)
              ==> FirstNext(next, s) == next[k].1
  {
    if next != [] && next[0].0 != s {
      FirstNextFinds(next[1..], s);
      assert forall k :: 1 <= k < |next| ==> next[k] == next[1..][k - 1];
    }
  }

  /** `StateDesc::FindNext`: the scan over the pairs. */
  method FindNext(d: StateDesc, s: String) returns (r: int)
    ensures r == FirstNext(d.next, s)
  {
    for k := 0 to |d.next|
      invariant FirstNext(d.next, s) == FirstNext(d.next[k..], s)
    {
      assert d.next[k..][1..] == d.next[k + 1..];
      if d.next[k].0 == s {
        return d.next[k].1;
      }
    }
    return TagNone;
  }

  /** The table after `Find(state, true)`: grown with empty descriptors to hold slot
      `state + 1` (unchanged for states below `TAG_INIT`). */
  function Grown(m: seq<StateDesc>, state: int): (r: seq<StateDesc>)
    ensures |m| <= |r| && r[..|m|] == m
    ensures forall i :: |m| <= i < |r| ==> r[i] == EmptyDesc
    ensures state + 1 >= 0 ==> state + 1 < |r| && |r| == (if state + 2 <= |m| then |m| else state + 2)
    ensures state + 1 < 0 ==> r == m
  {
    if state + 1 < 0 || state + 1 < |m| then m
    else m + seq(state + 2 - |m|, _ => EmptyDesc)
  }

  /** The table after `SetStateNext(st, pairs)`: the state's slot, grown into place,
      gets the pairs after those it had. */
  function WithNext(m: seq<StateDesc>, st: int, pairs: seq<(String, int)>): seq<StateDesc>
  {
    if st + 1 < 0 then m
    else
      var g := Grown(m, st);
      g[st + 1 := g[st + 1].(next := g[st + 1].next + pairs)]
  }

  /** The table after `SetStateAttr(st, names)`: the state's slot, grown into place,
      gets the names after those it had. */
  function WithAtts(m: seq<StateDesc>, st: int, names: seq<String>): seq<StateDesc>
  {
    if st + 1 < 0 then m
    else
      var g := Grown(m, st);
      g[st + 1 := g[st + 1].(atts := g[st + 1].atts + names)]
  }

  /** Slot by slot, what `WithNext` and `WithAtts` leave: the grown table, with only
      the state's own slot changed. */
  lemma GrownSlots(m: seq<StateDesc>, st: int, pairs: seq<(String, int)>, names: seq<String>)
    requires st + 1 >= 0
    ensures var n := if st + 2 <= |m| then |m| else st + 2;
      var old_ := if st + 1 < |m| then m[st + 1] else EmptyDesc;
      && |WithNext(m, st, pairs)| == n && |WithAtts(m, st, names)| == n
      && WithNext(m, st, pairs)[st + 1] == old_.(next := old_.next + pairs)
      && WithAtts(m, st, names)[st + 1] == old_.(atts := old_.atts + names)
      && (forall i :: 0 <= i < n && i != st + 1 ==>
            WithNext(m, st, pairs)[i] == WithAtts(m, st, names)[i] == if i < |m| then m[i] else EmptyDesc)
  {
    var g := Grown(m, st);
    assert forall i :: 0 <= i < |m| ==> g[i] == g[..|m|][i];
  }

  /** The state the parser pushes for an element `name` opened under `state`. */
  function NextState(table: seq<StateDesc>, state: int, name: String): (r: int)
    ensures state < TagInit ==> r == TagNone
    ensures Slot(state, |table|).None? ==> r == TagNone
    ensures Slot(state, |table|).Some? ==> r == FirstNext(table[state + 1].next, name)
  {
    match Slot(state, |table|)
    case None => TagNone
    case Some(s) => FirstNext(table[s].next, name)
  }

  /** `StartState` is reached only for a real state with a descriptor (`EndState`, by
      contrast, for every real state: see `EndElement`). */
  predicate Fires(table: seq<StateDesc>, state: int)
  {
    state > TagInit && Slot(state, |table|).Some?
  }

  /** The value vector after one attribute: every declared position with its name gets
      its value. */
  function Assign(vatts: seq<String>, declared: seq<String>, a: Attribute): (r: seq<String>)
    requires |vatts| == |declared|
    ensures |r| == |declared|
    ensures forall i :: 0 <= i < |declared| ==> r[i] == if declared[i] == a.name then a.value else vatts[i]
  {
    seq(|vatts|, i requires 0 <= i < |vatts| => if declared[i] == a.name then a.value else vatts[i])
  }

  /** The vector `StartState` receives: the declared names, filled from the actual
      attributes in document order. */
  function Project(declared: seq<String>, actual: seq<Attribute>): (r: seq<String>)
    ensures |r| == |declared|
  {
    if actual == [] then seq(|declared|, _ => "")
    else Assign(Project(declared, actual[..|actual| - 1]), declared, actual[|actual| - 1])
  }

  /** Position `i` holds the value of the attribute named `declared[i]` (the last one,
      should it repeat), or `""` when the element does not have it. */
  lemma {:induction false} ProjectHoldsDeclaredValues(declared: seq<String>, actual: seq<Attribute>, i: nat)
    requires i < |declared|
    ensures Project(declared, actual)[i] == match LastValue(actual, declared[i]) case Some(v) => v case None => ""
    decreases |actual|
  {
    if actual != [] {
      var init := actual[..|actual| - 1];
      ProjectHoldsDeclaredValues(declared, init, i);
      assert forall k :: 0 <= k < |init| ==> init[k] == actual[k];
    }
  }

  /** The attributes of an element that no declared name covers, in document order. */
  function Undeclared(declared: seq<String>, actual: seq<Attribute>): (r: seq<Attribute>)
    ensures |r| <= |actual|
  {
    if actual == [] then []
    else
      var a := actual[|actual| - 1];
      Undeclared(declared, actual[..|actual| - 1]) + (if a.name in declared then [] else [a])
  }

  /** The extra-argument list holds exactly the attributes whose names are not declared. */
  lemma {:induction false} UndeclaredMembers(declared: seq<String>, actual: seq<Attribute>, a: Attribute)
    ensures a in Undeclared(declared, actual) <==> a in actual && a.name !in declared
    decreases |actual|
  {
    if actual != [] {
      var init := actual[..|actual| - 1];
      UndeclaredMembers(declared, init, a);
      assert actual == init + [actual[|actual| - 1]];
    }
  }

  /** One copy of `a` per declared name different from it: the inner loop as written. */
  function Misses(declared: seq<String>, a: Attribute): seq<Attribute>
  {
    if declared == [] then []
    else Misses(declared[..|declared| - 1], a) + (if declared[|declared| - 1] != a.name then [a] else [])
  }

  /** `m_extraArgs` as the start handler fills it: every attribute is appended once per
      declared name it does not equal. */
  function ExtraArgsAsWritten(declared: seq<String>, actual: seq<Attribute>): (r: seq<Attribute>)
    ensures declared == [] ==> r == []
  {
    if actual == [] then []
    else ExtraArgsAsWritten(declared, actual[..|actual| - 1]) + Misses(declared, actual[|actual| - 1])
  }

  /** `GetExtraArg`: the value of the first extra argument named `name`, else `def`. */
  function ExtraArgValue(extra: seq<Attribute>, name: String, def: String): (r: String)
    ensures (forall k :: 0 <= k < |extra| ==> extra[k].name != name) ==> r == def
    ensures forall k :: 0 <= k < |extra| && extra[k].name == name && (forall j :: 0 <= j < k ==> extra[j].name != name)
              ==> r == extra[k].value
  {
    if extra == [] then def
    else if extra[0].name == name then extra[0].value
    else
      assert forall k :: 1 <= k < |extra| ==> extra[k] == extra[1..][k - 1];
      ExtraArgValue(extra[1..], name, def)
  }

  /**
    As written the extra arguments are wrong both ways: with no declared attributes an
    element's attribute `x="1"` is not reported, so `GetExtraArg("x", "d")` answers "d";
    and a declared attribute is reported as extra once per other declared name.
   */
  lemma ExtraArgsAsWrittenMisreport()
    ensures ExtraArgsAsWritten([], [Attribute("x", "1")]) == []
    ensures ExtraArgValue(ExtraArgsAsWritten([], [Attribute("x", "1")]), "x", "d") == "d"
    ensures Undeclared([], [Attribute("x", "1")]) == [Attribute("x", "1")]
    ensures ExtraArgValue(Undeclared([], [Attribute("x", "1")]), "x", "d") == "1"
    ensures ExtraArgsAsWritten(["name", "desc"], [Attribute("name", "normal")]) == [Attribute("name", "normal")]
    ensures Undeclared(["name", "desc"], [Attribute("name", "normal")]) == []
  {
    var x := Attribute("x", "1");
    assert [x][..0] == [];
    var n := Attribute("name", "normal");
    assert [n][..0] == [];
    var declared: seq<String> := ["name", "desc"];
    assert declared[..1] == ["name"] && declared[..1][..0] == [];
    assert Misses(declared, n) == [n];
  }

  /** The arguments of a start handler call: the state entered, the element's name and
      the declared attribute values. */
  datatype StartEvent = StartEvent(state: int, name: String, atts: seq<String>)

  class Parser {
    var stateMap: seq<StateDesc>
    var stack: seq<int>
    /** `m_top`: the slot of the cached descriptor, `None` for a null pointer. */
    var top: Option<nat>
    var extraArgs: seq<Attribute>

    /** The stack is never empty and a cached descriptor is the top state's. */
    ghost predicate Valid()
      reads this
    {
      stack != [] && (top.Some? ==> top == Slot(stack[|stack| - 1], |stateMap|))
    }

    function Depth(): (d: int)
      reads this
      ensures d == |stack| - 1
    {
      |stack| - 1
    }

    function State(): int
      reads this
      requires stack != []
    {
      stack[|stack| - 1]
    }

    /** The constructor runs `PostReset` on an empty table. */
    constructor()
      ensures stateMap == [] && stack == [TagInit] && top == None && extraArgs == []
      ensures Valid() && Depth() == 0
    {
      stateMap := [];
      extraArgs := [];
      stack := [TagInit];
      top := None;
    }

    method PostReset()
      modifies this
      ensures stack == [TagInit] && top == None && Depth() == 0 && Valid()
      ensures stateMap == old(stateMap) && extraArgs == old(extraArgs)
    {
      stack := [];
      Push(TagInit, None);
    }

    /** `Find`: the slot of `state`, growing the table first when `insert` is set. */
    method Find(state: int, insert: bool) returns (slot: Option<nat>)
      modifies this
      ensures stack == old(stack) && top == old(top) && extraArgs == old(extraArgs)
      ensures !insert ==> stateMap == old(stateMap) && slot == Slot(state, |stateMap|)
      ensures insert ==> stateMap == Grown(old(stateMap), state)
      ensures insert ==> slot == if state + 1 < 0 then None else Some(state + 1)
    {
      var s := state + 1;
      if s < 0 {
        return None;
      }
      if s >= |stateMap| {
        if !insert {
          return None;
        }
        stateMap := stateMap + seq(s + 1 - |stateMap|, _ => EmptyDesc);
      }
      return Some(s);
    }

    /** `SetStateAttr`: declares attribute names for `st`, after those already declared. */
    method SetStateAttr(st: int, names: seq<String>)
      requires Valid()
      modifies this
      ensures Valid() && stack == old(stack) && top == old(top) && extraArgs == old(extraArgs)
      ensures stateMap == WithAtts(old(stateMap), st, names)
    {
      var slot := Find(st, true);
      if slot.None? {
        return;
      }
      var s := slot.value;
      var start := stateMap[s].atts;
      for i := 0 to |names|
        invariant stack == old(stack) && top == old(top) && extraArgs == old(extraArgs)
        invariant |stateMap| == |Grown(old(stateMap), st)|
        invariant stateMap == Grown(old(stateMap), st)[s := stateMap[s]]
        invariant stateMap[s] == Grown(old(stateMap), st)[s].(atts := start + names[..i])
      {
        assert names[..i + 1] == names[..i] + [names[i]];
        stateMap := stateMap[s := stateMap[s].(atts := stateMap[s].atts + [names[i]])];
      }
      assert names[..|names|] == names;
    }

    /** `SetStateNext`: adds `(name, next)` pairs for `st`, after those already there. */
    method SetStateNext(st: int, pairs: seq<(String, int)>)
      requires Valid()
      modifies this
      ensures Valid() && stack == old(stack) && top == old(top) && extraArgs == old(extraArgs)
      ensures stateMap == WithNext(old(stateMap), st, pairs)
    {
      var slot := Find(st, true);
      if slot.None? {
        return;
      }
      var s := slot.value;
      var start := stateMap[s].next;
      for i := 0 to |pairs|
        invariant stack == old(stack) && top == old(top) && extraArgs == old(extraArgs)
        invariant |stateMap| == |Grown(old(stateMap), st)|
        invariant stateMap == Grown(old(stateMap), st)[s := stateMap[s]]
        invariant stateMap[s] == Grown(old(stateMap), st)[s].(next := start + pairs[..i])
      {
        assert pairs[..i + 1] == pairs[..i] + [pairs[i]];
        stateMap := stateMap[s := stateMap[s].(next := stateMap[s].next + [pairs[i]])];
      }
      assert pairs[..|pairs|] == pairs;
    }

    method SetStateCharData(st: int, notify: bool)
      requires Valid()
      modifies this
      ensures Valid() && stack == old(stack) && top == old(top) && extraArgs == old(extraArgs)
      ensures st + 1 < 0 ==> stateMap == old(stateMap)
      ensures st + 1 >= 0 ==>
        var g := Grown(old(stateMap), st);
        stateMap == g[st + 1 := g[st + 1].(charData := notify)]
    {
      var slot := Find(st, true);
      if slot.None? {
        return;
      }
      stateMap := stateMap[slot.value := stateMap[slot.value].(charData := notify)];
    }

    /** `Top`: the descriptor of the top state, looked up when nothing is cached. */
    method Top() returns (state: int, slot: Option<nat>)
      requires Valid()
      modifies this
      ensures Valid() && stack == old(stack) && stateMap == old(stateMap) && extraArgs == old(extraArgs)
      ensures state == State() && slot == Slot(State(), |stateMap|) && top == slot
    {
      state := stack[|stack| - 1];
      if top.None? {
        top := Find(state, false);
      }
      slot := top;
    }

    method Push(next: int, desc: Option<nat>)
      requires desc.Some? ==> desc == Slot(next, |stateMap|)
      modifies this
      ensures stack == old(stack) + [next] && top == desc
      ensures Valid() && stateMap == old(stateMap) && extraArgs == old(extraArgs)
    {
      stack := stack + [next];
      top := desc;
    }

    method Pop()
      requires |stack| >= 2
      modifies this
      ensures stack == old(stack)[..|old(stack)| - 1] && top == None
      ensures Valid() && stateMap == old(stateMap) && extraArgs == old(extraArgs)
    {
      stack := stack[..|stack| - 1];
      top := None;
    }

    /**
      The start handler. It pushes exactly one state: the one the top state's table
      names for `name`, or `TAG_NONE`. When that state is real and has a descriptor it
      reports a start event with the projected attributes, and the extra arguments as
      the attribute loop fills them (see `ExtraArgsAsWrittenMisreport`).
     */
    method StartElement(name: String, atts: seq<Attribute>) returns (ev: Option<StartEvent>)
      requires Valid()
      modifies this
      ensures Valid() && stateMap == old(stateMap)
      ensures var next := NextState(stateMap, old(State()), name);
        && stack == old(stack) + [next]
        && (ev.Some? <==> Fires(stateMap, next))
        && (ev.Some? ==> ev.value == StartEvent(next, name, Project(stateMap[next + 1].atts, atts)))
        && extraArgs == if ev.Some? then ExtraArgsAsWritten(stateMap[next + 1].atts, atts) else []
    {
      var next, desc := Lookup(name);
      extraArgs := [];
      ev := None;
      if desc.Some? {
        var declared := stateMap[desc.value].atts;
        var vatts := ProjectAll(declared, atts);
        ev := Some(StartEvent(next, name, vatts));
      }
      Push(next, desc);
    }

    /** The lookups of the start handler: the top state's descriptor, the state it
        names for `name`, and that state's descriptor when the state is real. */
    method Lookup(name: String) returns (next: int, desc: Option<nat>)
      requires Valid()
      modifies this
      ensures Valid() && stack == old(stack) && stateMap == old(stateMap) && extraArgs == old(extraArgs)
      ensures next == NextState(stateMap, State(), name)
      ensures desc.Some? <==> Fires(stateMap, next)
      ensures desc.Some? ==> desc == Slot(next, |stateMap|)
    {
      next := TagNone;
      desc := None;
      var state, t := Top();
      ghost var m := stateMap;
      assert t == Slot(state, |m|);
      if t.Some? {
        assert t.value == state + 1;
        next := FindNext(stateMap[t.value], name);
        assert next == NextState(m, state, name);
        if next > TagInit {
          desc := Find(next, false);
        }
      }
    }

    /** The attribute loops of the start handler: fills the declared positions and, as
        written, appends each attribute to the extra arguments once for every declared
        name it differs from. */
    method ProjectAll(declared: seq<String>, atts: seq<Attribute>) returns (vatts: seq<String>)
      requires extraArgs == []
      modifies this
      ensures vatts == Project(declared, atts)
      ensures extraArgs == ExtraArgsAsWritten(declared, atts)
      ensures stack == old(stack) && top == old(top) && stateMap == old(stateMap)
    {
      vatts := seq(|declared|, _ => "");
      for k := 0 to |atts|
        invariant stack == old(stack) && top == old(top) && stateMap == old(stateMap)
        invariant vatts == Project(declared, atts[..k])
        invariant extraArgs == ExtraArgsAsWritten(declared, atts[..k])
      {
        vatts := AssignOne(declared, atts[k], vatts);
        assert atts[..k + 1][..k] == atts[..k];
      }
      assert atts[..|atts|] == atts;
    }

    /** The inner loop for one attribute `a`: its value goes to every declared position
        of its name, and `a` is appended to the extra arguments at every other one. */
    method AssignOne(declared: seq<String>, a: Attribute, before: seq<String>) returns (vatts: seq<String>)
      requires |before| == |declared|
      modifies this
      ensures vatts == Assign(before, declared, a)
      ensures extraArgs == old(extraArgs) + Misses(declared, a)
      ensures stack == old(stack) && top == old(top) && stateMap == old(stateMap)
    {
      vatts := before;
      for i := 0 to |declared|
        invariant stack == old(stack) && top == old(top) && stateMap == old(stateMap)
        invariant |vatts| == |declared|
        invariant forall j :: 0 <= j < |declared| ==>
          vatts[j] == if j < i && declared[j] == a.name then a.value else before[j]
        invariant extraArgs == old(extraArgs) + Misses(declared[..i], a)
      {
        assert declared[..i + 1][..i] == declared[..i];
        if declared[i] == a.name {
          vatts := vatts[i := a.value];
        } else {
          extraArgs := extraArgs + [a];
        }
      }
      assert declared[..|declared|] == declared;
    }

    /** The end handler: reports the closing state when it is real, and pops one state. */
    method EndElement() returns (ended: Option<int>)
      requires Valid() && Depth() >= 1
      modifies this
      ensures Valid() && stateMap == old(stateMap) && extraArgs == old(extraArgs)
      ensures stack == old(stack)[..|old(stack)| - 1]
      ensures ended == if old(State()) > TagInit then Some(old(State())) else None
    {
      var state := stack[|stack| - 1];
      ended := None;
      if state > TagInit {
        ended := Some(state);
      }
      Pop();
    }

    /** The character-data handler: reports the top state when it is real, has a
        descriptor and asked for character data. */
    method CharData(data: String) returns (notify: Option<int>)
      requires Valid()
      modifies this
      ensures Valid() && stack == old(stack) && stateMap == old(stateMap) && extraArgs == old(extraArgs)
      ensures notify.Some? <==> Fires(stateMap, State()) && stateMap[State() + 1].charData
      ensures notify.Some? ==> notify.value == State()
    {
      var state, t := Top();
      notify := None;
      if state > TagInit && t.Some? && stateMap[t.value].charData {
        notify := Some(state);
      }
    }

    /** `GetExtraArg`: reads the extra arguments of the current element. */
    method GetExtraArg(name: String, def: String) returns (r: String)
      ensures r == ExtraArgValue(extraArgs, name, def)
    {
      for i := 0 to |extraArgs|
        invariant ExtraArgValue(extraArgs, name, def) == ExtraArgValue(extraArgs[i..], name, def)
      {
        assert extraArgs[i..][1..] == extraArgs[i + 1..];
        if extraArgs[i].name == name {
          return extraArgs[i].value;
        }
      }
      return def;
    }
  }
}
