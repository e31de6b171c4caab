/**
  `RBParser`, the configuration reader of `rcbrowser.cpp`: a stack of states driven by
  the XML reader's start and end tags, which appends favorites and file associations
  to the options as it meets them.
 */
module BrowserConfig {

  import opened Wrappers
  import opened Strings
  import opened Xml
  import opened Assoc
  import opened Paths

  datatype RbState = StNone | StInit | StRoot | StFavorites | StFileAssoc | StGraphics

  /** The state the start handler pushes for the element `name` opened under `top`. */
  function RbNext(top: RbState, name: String): (r: RbState)
    ensures r == StRoot <==> top == StInit && name == "rcbrowser"
    ensures r == StFavorites <==> top == StRoot && name == "favorites"
    ensures r == StFileAssoc <==> top == StRoot && name == "file_assoc"
    ensures r == StGraphics <==> top == StRoot && name == "graphics"
    ensures r != StInit
  {
    match top
    case StInit => if name == "rcbrowser" then StRoot else StNone
    case StRoot =>
      if name == "favorites" then StFavorites
      else if name == "file_assoc" then StFileAssoc
      else if name == "graphics" then StGraphics
      else StNone
    case _ => StNone
  }

  /** Elements under an unrecognised element, and the leaf elements themselves, only
      ever push `ST_NONE`. */
  lemma ChildOfUnknownIsNone(name: String, child: String)
    ensures RbNext(StNone, child) == StNone
    ensures RbNext(StFavorites, name) == StNone && RbNext(StFileAssoc, name) == StNone
    ensures RbNext(StGraphics, name) == StNone
  {
  }

  /** Over a well-nested document the stack holds the initial state plus one state per
      open element. */
  lemma RbStackDepth(evs: seq<Event>)
    requires NestsFrom(0, evs)
    ensures Replay(RbNext, [StInit], evs).Some?
    ensures |Replay(RbNext, [StInit], evs).value| == 1 + Opens(evs) - Closes(evs)
  {
    ReplayDepth(RbNext, [StInit], evs);
  }

  /**
    The favorite `ParseFavorite` reads as written: the last `num`, `name` and `path`
    attributes, with `uninit` standing for the indeterminate id of a favorite without
    `num` (the id member is never initialised).
   */
  function FavoriteAsWritten(atts: seq<Attribute>, uninit: int): (r: Option<Favorite>)
    ensures r.Some? ==> r.value.id != 0 && r.value.name != [] && r.value.path != []
  {
    var id := match LastValue(atts, "num") case Some(v) => Atoi(v) case None => uninit;
    var name := ValueOr(atts, "name", "");
    var path := ValueOr(atts, "path", "");
    if id != 0 && name != [] && path != [] then Some(Favorite(id, name, path)) else None
  }

  /** A favorite without `num` is kept or dropped depending on stack garbage. */
  lemma MissingNumReadsGarbage()
    ensures FavoriteAsWritten([Attribute("name", "M"), Attribute("path", "/m")], 7) == Some(Favorite(7, "M", "/m"))
    ensures FavoriteAsWritten([Attribute("name", "M"), Attribute("path", "/m")], 0) == None
  {
    var atts := [Attribute("name", "M"), Attribute("path", "/m")];
    assert LastValue(atts, "num").None?;
    assert atts[..1] == [Attribute("name", "M")];
    assert LastValue(atts, "name") == Some("M");
  }

  /**
    The favorite with the id initialised to 0: it is kept exactly when it has a non-zero
    `num`, a name and a path, and it carries the last value of each.
   */
  function FavoriteFromAtts(atts: seq<Attribute>): (r: Option<Favorite>)
    ensures r.Some? <==> LastValue(atts, "num").Some? && Atoi(LastValue(atts, "num").value) != 0
                         && LastValue(atts, "name").Some? && LastValue(atts, "name").value != []
                         && LastValue(atts, "path").Some? && LastValue(atts, "path").value != []
    ensures r.Some? ==> r.value == Favorite(Atoi(LastValue(atts, "num").value), LastValue(atts, "name").value,
                                            LastValue(atts, "path").value)
    ensures r == FavoriteAsWritten(atts, 0)
  {
    var id := match LastValue(atts, "num") case Some(v) => Atoi(v) case None => 0;
    var name := ValueOr(atts, "name", "");
    var path := ValueOr(atts, "path", "");
    if id != 0 && name != [] && path != [] then Some(Favorite(id, name, path)) else None
  }

  /** With a `num` attribute the uninitialised id is overwritten, and the program reads
      the favorite the corrected reader does. */
  lemma NumMakesFavoriteDeterminate(atts: seq<Attribute>, uninit: int)
    requires LastValue(atts, "num").Some?
    ensures FavoriteAsWritten(atts, uninit) == FavoriteFromAtts(atts)
  {
  }

  /**
    The association `ParsePattern` builds, or `None` when it adds none: the `match`
    (or `ext`) attribute is required and its regex must compile; the command's words
    get the placeholder appended unless one of them contains it.
   */
  function RuleFromAtts(atts: seq<Attribute>, isRegex: bool, regcomp: Compiler, wordexp: WordExpander): (r: Option<FileAssoc>)
    ensures LastValue(atts, if isRegex then "match" else "ext").None? ==> r.None?
    ensures r.Some? ==> regcomp(r.value.regex) && AnyContains(r.value.args, Placeholder)
    ensures r.Some? && isRegex ==> r.value.regex == LastValue(atts, "match").value
    ensures r.Some? && !isRegex ==> r.value.regex == ExtensionRegex(LastValue(atts, "ext").value)
    ensures r.Some? ==> (r.value.isKillable <==> LastValue(atts, "killable").Some? && KillableFlag(LastValue(atts, "killable").value))
  {
    match LastValue(atts, if isRegex then "match" else "ext")
    case None => None
    case Some(m) =>
      var regex := if isRegex then m else ExtensionRegex(m);
      if !regcomp(regex) then None
      else
        var killable := LastValue(atts, "killable");
        var words := match LastValue(atts, "command")
          case None => []
          case Some(c) => (match wordexp(c) case Some(ws) => ws case None => []);
        Some(FileAssoc(regex, WithPlaceholder(words, Placeholder), killable.Some? && KillableFlag(killable.value)))
  }

  class RbParser {
    var stack: seq<RbState>
    var favorites: seq<Favorite>
    var assocs: seq<FileAssoc>
    const regcomp: Compiler
    const wordexp: WordExpander

    /** The stack is never empty, and every rule read has a token containing `{}`. */
    ghost predicate Valid()
      reads this
    {
      stack != [] && EveryRuleContains(assocs, Placeholder)
    }

    constructor(regcomp: Compiler, wordexp: WordExpander)
      ensures Valid()
      ensures stack == [StInit] && favorites == [] && assocs == []
      ensures this.regcomp == regcomp && this.wordexp == wordexp
    {
      this.regcomp := regcomp;
      this.wordexp := wordexp;
      stack := [StInit];
      favorites := [];
      assocs := [];
    }

    /** The start handler: dispatches on the top state, then pushes exactly one state.
        `uninit` is the indeterminate id of a favorite read without `num`. */
    method StartElement(name: String, atts: seq<Attribute>, uninit: int)
      requires Valid()
      modifies this
      ensures Valid()
      ensures var top := old(stack[|stack| - 1]);
        && stack == old(stack) + [RbNext(top, name)]
        && favorites == old(favorites) + (if top == StFavorites && name == "favorite" then OptSeq(FavoriteAsWritten(atts, uninit)) else [])
        && assocs == old(assocs) + (if top == StFileAssoc && (name == "pattern" || name == "extension")
                                    then OptSeq(RuleFromAtts(atts, name == "pattern", regcomp, wordexp)) else [])
    {
      var top := stack[|stack| - 1];
      if top == StFavorites && name == "favorite" {
        ParseFavorite(atts, uninit);
      } else if top == StFileAssoc && name == "pattern" {
        ParsePattern(atts, true);
      } else if top == StFileAssoc && name == "extension" {
        ParsePattern(atts, false);
      }
      stack := stack + [RbNext(top, name)];
    }

    /** The end handler pops one state. */
    method EndElement()
      requires Valid() && |stack| >= 2
      modifies this
      ensures Valid()
      ensures stack == old(stack)[..|old(stack)| - 1]
      ensures favorites == old(favorites) && assocs == old(assocs)
    {
      stack := stack[..|stack| - 1];
    }

    /** Scans the attributes (the last of each name wins) and appends the favorite;
        `uninit` is the indeterminate id a favorite without `num` keeps. */
    method ParseFavorite(atts: seq<Attribute>, uninit: int)
      requires Valid()
      modifies this
      ensures Valid()
      ensures favorites == old(favorites) + OptSeq(FavoriteAsWritten(atts, uninit))
      ensures stack == old(stack) && assocs == old(assocs)
    {
      var id, name, path := ScanFavorite(atts, uninit);
      if id != 0 && name != [] && path != [] {
        favorites := favorites + [Favorite(id, name, path)];
      }
    }

    /** Scans the attributes (the last of each name wins) and appends the association. */
    method ParsePattern(atts: seq<Attribute>, isRegex: bool)
      requires Valid()
      modifies this
      ensures Valid()
      ensures assocs == old(assocs) + OptSeq(RuleFromAtts(atts, isRegex, regcomp, wordexp))
      ensures stack == old(stack) && favorites == old(favorites)
    {
      var rule := BuildRule(atts, isRegex, regcomp, wordexp);
      if rule.Some? {
        EveryRuleContainsSnoc(assocs, rule.value, Placeholder);
        assocs := assocs + [rule.value];
      }
    }
  }

  /** The body of `ParsePattern` up to the append: the rule the attributes describe. */
  method BuildRule(atts: seq<Attribute>, isRegex: bool, regcomp: Compiler, wordexp: WordExpander)
    returns (rule: Option<FileAssoc>)
    ensures rule == RuleFromAtts(atts, isRegex, regcomp, wordexp)
  {
    var match_, cmd, killable := ScanPattern(atts, isRegex);
    if match_.None? {
      return None;
    }
    var regex := if isRegex then match_.value else ExtensionRegex(match_.value);
    if !regcomp(regex) {
      return None;
    }
    var isKillable := killable.Some? && KillableFlag(killable.value);
    var words: seq<String> := [];
    if cmd.Some? {
      var expanded := wordexp(cmd.value);
      if expanded.Some? {
        words := expanded.value;
      }
    }
    var args := ArgsFromWords(words, Placeholder);
    return Some(FileAssoc(regex, args, isKillable));
  }

  /** The attribute loop of `ParseFavorite`, with the id starting at the indeterminate
      `uninit` of the uninitialised member. */
  method ScanFavorite(atts: seq<Attribute>, uninit: int) returns (id: int, name: String, path: String)
    ensures id == match LastValue(atts, "num") case Some(v) => Atoi(v) case None => uninit
    ensures name == ValueOr(atts, "name", "") && path == ValueOr(atts, "path", "")
  {
    id, name, path := uninit, "", "";
    for i := 0 to |atts|
      invariant id == match LastValue(atts[..i], "num") case Some(v) => Atoi(v) case None => uninit
      invariant name == ValueOr(atts[..i], "name", "")
      invariant path == ValueOr(atts[..i], "path", "")
    {
      LastValueSnoc(atts, i, "num");
      LastValueSnoc(atts, i, "name");
      LastValueSnoc(atts, i, "path");
      if atts[i].name == "num" {
        id := Atoi(atts[i].value);
      } else if atts[i].name == "name" {
        name := atts[i].value;
      } else if atts[i].name == "path" {
        path := atts[i].value;
      }
    }
    assert atts[..|atts|] == atts;
  }

  /** The attribute loop of `ParsePattern`: the pattern (`match`, or `ext` for an
      extension rule), the command and the killable flag, each `None` when absent. */
  method ScanPattern(atts: seq<Attribute>, isRegex: bool) returns (match_: Option<String>, cmd: Option<String>, killable: Option<String>)
    ensures match_ == LastValue(atts, if isRegex then "match" else "ext")
    ensures cmd == LastValue(atts, "command") && killable == LastValue(atts, "killable")
  {
    var key: String := if isRegex then "match" else "ext";
    match_, cmd, killable := None, None, None;
    for i := 0 to |atts|
      invariant match_ == LastValue(atts[..i], key)
      invariant cmd == LastValue(atts[..i], "command")
      invariant killable == LastValue(atts[..i], "killable")
    {
      LastValueSnoc(atts, i, key);
      LastValueSnoc(atts, i, "command");
      LastValueSnoc(atts, i, "killable");
      if atts[i].name == key {
        match_ := Some(atts[i].value);
      } else if atts[i].name == "command" {
        cmd := Some(atts[i].value);
      } else if atts[i].name == "killable" {
        killable := Some(atts[i].value);
      }
    }
    assert atts[..|atts|] == atts;
  }
}
