/**
  `RCParser`, the configuration reader of `rclauncher.cpp`: it declares its states in a
  `Simple_XML_Parser` table and, from the start events that table produces, appends
  favorites and file associations to the options.
 */
module LauncherConfig {

  import opened Wrappers
  import opened Strings
  import opened Xml
  import opened Assoc
  import opened Paths
  import opened SimpleXml

  const TagConfig: int := 0
  const TagFavorites: int := 1
  const TagFileAssoc: int := 2
  const TagGraphics: int := 3
  const TagFont: int := 4
  const TagColor: int := 5
  const TagFavorite: int := 6
  const TagPattern: int := 7

  const FavoriteAtts: seq<String> := ["num", "name", "path"]
  const PatternAtts: seq<String> := ["match", "ext", "command", "killable"]

  /** The table the constructor declares, slot by slot (state `s` in slot `s + 1`). */
  function RcTable(): (r: seq<StateDesc>)
    ensures |r| == TagPattern + 2
    ensures forall t :: TagFont + 1 <= t < |r| ==> r[t].next == []
    ensures forall t :: 0 <= t <= TagGraphics + 1 ==> r[t].atts == []
    ensures r[TagFavorite + 1].atts == FavoriteAtts && r[TagPattern + 1].atts == PatternAtts
    ensures forall t :: 0 <= t < |r| ==> !r[t].charData
  {
    [ StateDesc([("config", TagConfig)], [], false),
      StateDesc(ConfigNext, [], false),
      StateDesc([("favorite", TagFavorite)], [], false),
      StateDesc(FileAssocNext, [], false),
      StateDesc(GraphicsNext, [], false),
      StateDesc([], ["name", "desc"], false),
      StateDesc([], ["name", "r", "g", "b"], false),
      StateDesc([], FavoriteAtts, false),
      StateDesc([], PatternAtts, false) ]
  }

  /** The document shape the table accepts: `config`, then `favorites/favorite` and
      `file_assoc/pattern|extension`. */
  lemma RcTableRoutes()
    ensures NextState(RcTable(), TagInit, "config") == TagConfig
    ensures NextState(RcTable(), TagConfig, "favorites") == TagFavorites
    ensures NextState(RcTable(), TagConfig, "file_assoc") == TagFileAssoc
    ensures NextState(RcTable(), TagFavorites, "favorite") == TagFavorite
    ensures NextState(RcTable(), TagFileAssoc, "pattern") == TagPattern
    ensures NextState(RcTable(), TagFileAssoc, "extension") == TagPattern
  {
    var t := RcTable();
    var config := t[TagConfig + 1].next;
    assert NextState(t, TagConfig, "favorites") == TagFavorites by {
      FirstNextFinds(config, "favorites");
      assert config[0].0 != "favorites" by { assert |config[0].0| != |"favorites"|; }
      assert config[1] == ("favorites", TagFavorites);
    }
    assert NextState(t, TagConfig, "file_assoc") == TagFileAssoc by {
      FirstNextFinds(config, "file_assoc");
      assert config[0].0 != "file_assoc" by { assert |config[0].0| != |"file_assoc"|; }
      assert config[1].0 != "file_assoc" by { assert |config[1].0| != |"file_assoc"|; }
      assert config[2] == ("file_assoc", TagFileAssoc);
    }
    var fileAssoc := t[TagFileAssoc + 1].next;
    assert NextState(t, TagFileAssoc, "extension") == TagPattern by {
      FirstNextFinds(fileAssoc, "extension");
      assert fileAssoc[0].0 != "extension" by { assert |fileAssoc[0].0| != |"extension"|; }
      assert fileAssoc[1] == ("extension", TagPattern);
    }
  }

  /** `favorite` and `pattern` elements fire with their declared attributes; their
      children, and anything under an unknown element, get `TAG_NONE`. */
  lemma RcTableLeaves(name: String)
    ensures Fires(RcTable(), TagFavorite) && RcTable()[TagFavorite + 1].atts == FavoriteAtts
    ensures Fires(RcTable(), TagPattern) && RcTable()[TagPattern + 1].atts == PatternAtts
    ensures NextState(RcTable(), TagFavorite, name) == TagNone
    ensures NextState(RcTable(), TagPattern, name) == TagNone
    ensures NextState(RcTable(), TagNone, name) == TagNone
  {
  }

  /** The favorite `ParseFavorite` adds from the vector `[num, name, path]`: kept when
      the id `atoi` reads is non-zero and the name and path are non-empty. */
  function RcFavorite(vatts: seq<String>): (r: Option<Favorite>)
    requires |vatts| == |FavoriteAtts|
    ensures r.Some? <==> Atoi(vatts[0]) != 0 && vatts[1] != [] && vatts[2] != []
    ensures r.Some? ==> r.value.id == Atoi(vatts[0]) && r.value.name == vatts[1] && r.value.path == vatts[2]
  {
    var f := Favorite(Atoi(vatts[0]), vatts[1], vatts[2]);
    if f.id != 0 && f.name != [] && f.path != [] then Some(f) else None
  }

  /** A `favorite` element without `num` gets the empty string, which `atoi` reads as 0,
      so it is dropped. */
  lemma MissingNumDropsFavorite(atts: seq<Attribute>)
    requires forall k :: 0 <= k < |atts| ==> atts[k].name != "num"
    ensures RcFavorite(Project(FavoriteAtts, atts)).None?
  {
    ProjectHoldsDeclaredValues(FavoriteAtts, atts, 0);
    assert LastValue(atts, FavoriteAtts[0]).None?;
    AtoiEmpty();
  }

  /**
    The association `ParsePattern` adds from the vector `[match, ext, command,
    killable]`: none when the pattern (or extension) is empty or its regex does not
    compile; the command's words get the placeholder unless one of them contains it.
   */
  function RcRule(vatts: seq<String>, isRegex: bool, regcomp: Compiler, wordexp: WordExpander): (r: Option<FileAssoc>)
    requires |vatts| == |PatternAtts|
    ensures (isRegex && vatts[0] == []) || (!isRegex && vatts[1] == []) ==> r.None?
    ensures r.Some? ==> regcomp(r.value.regex) && AnyContains(r.value.args, Placeholder)
    ensures r.Some? ==> r.value.regex == if isRegex then vatts[0] else ExtensionRegex(vatts[1])
    ensures r.Some? ==> (r.value.isKillable <==> KillableFlag(vatts[3]))
    ensures r.Some? && vatts[2] == [] ==> r.value.args == [Placeholder]
  {
    if (isRegex && vatts[0] == []) || (!isRegex && vatts[1] == []) then None
    else
      var regex := if isRegex then vatts[0] else ExtensionRegex(vatts[1]);
      if !regcomp(regex) then None
      else
        var words := if vatts[2] == [] then [] else (match wordexp(vatts[2]) case Some(ws) => ws case None => []);
        Some(FileAssoc(regex, WithPlaceholder(words, Placeholder), KillableFlag(vatts[3])))
  }


  const ConfigNext: seq<(String, int)> := [("graphics", TagGraphics), ("favorites", TagFavorites), ("file_assoc", TagFileAssoc)]
  const GraphicsNext: seq<(String, int)> := [("font", TagFont), ("color", TagColor)]
  const FileAssocNext: seq<(String, int)> := [("pattern", TagPattern), ("extension", TagPattern)]

  /** The first three `SetStateNext` calls: slots 0, 1 and 4 are declared, and the
      table has grown past the two slots declared next. */
  lemma DeclaredOuterStates()
    ensures WithNext(WithNext(WithNext([], TagInit, [("config", TagConfig)]), TagConfig, ConfigNext),
              TagGraphics, GraphicsNext) == RcTable()[..2] + [EmptyDesc, EmptyDesc, RcTable()[4]]
  {
    var t := RcTable();
    var m1 := WithNext([], TagInit, [("config", TagConfig)]);
    GrownSlots([], TagInit, [("config", TagConfig)], []);
    var m2 := WithNext(m1, TagConfig, ConfigNext);
    GrownSlots(m1, TagConfig, ConfigNext, []);
    var m3 := WithNext(m2, TagGraphics, GraphicsNext);
    GrownSlots(m2, TagGraphics, GraphicsNext, []);
    assert m3[0] == t[0] && m3[1] == t[1] && m3[4] == t[4];
  }

  /** The five `SetStateNext` calls of the constructor, in order, build the first five
      slots of the table. */
  lemma DeclaredStates()
    ensures WithNext(WithNext(WithNext(WithNext(WithNext([], TagInit, [("config", TagConfig)]),
              TagConfig, ConfigNext), TagGraphics, GraphicsNext), TagFavorites, [("favorite", TagFavorite)]),
              TagFileAssoc, FileAssocNext) == RcTable()[..5]
  {
    var t := RcTable();
    var m3 := t[..2] + [EmptyDesc, EmptyDesc, t[4]];
    DeclaredOuterStates();
    var m4 := WithNext(m3, TagFavorites, [("favorite", TagFavorite)]);
    GrownSlots(m3, TagFavorites, [("favorite", TagFavorite)], []);
    var m5 := WithNext(m4, TagFileAssoc, FileAssocNext);
    GrownSlots(m4, TagFileAssoc, FileAssocNext, []);
    assert m5[0] == t[0] && m5[1] == t[1] && m5[2] == t[2] && m5[3] == t[3] && m5[4] == t[4];
  }

  /** The first two `SetStateAttr` calls declare the font and colour attributes. */
  lemma DeclaredGraphicsAttributes()
    ensures WithAtts(WithAtts(RcTable()[..5], TagFont, ["name", "desc"]), TagColor, ["name", "r", "g", "b"])
            == RcTable()[..7]
  {
    var t := RcTable();
    var m5 := t[..5];
    var m6 := WithAtts(m5, TagFont, ["name", "desc"]);
    GrownSlots(m5, TagFont, [], ["name", "desc"]);
    var m7 := WithAtts(m6, TagColor, ["name", "r", "g", "b"]);
    GrownSlots(m6, TagColor, [], ["name", "r", "g", "b"]);
    assert forall i :: 0 <= i < 5 ==> m7[i] == t[i];
    assert m7[5] == t[5] && m7[6] == t[6];
  }

  /** The four `SetStateAttr` calls of the constructor complete the table. */
  lemma DeclaredAttributes()
    ensures WithAtts(WithAtts(WithAtts(WithAtts(RcTable()[..5], TagFont, ["name", "desc"]),
              TagColor, ["name", "r", "g", "b"]), TagFavorite, FavoriteAtts), TagPattern, PatternAtts) == RcTable()
  {
    var t := RcTable();
    var m7 := t[..7];
    DeclaredGraphicsAttributes();
    var m8 := WithAtts(m7, TagFavorite, FavoriteAtts);
    GrownSlots(m7, TagFavorite, [], FavoriteAtts);
    var m9 := WithAtts(m8, TagPattern, PatternAtts);
    GrownSlots(m8, TagPattern, [], PatternAtts);
    assert forall i :: 0 <= i < 7 ==> m9[i] == t[i];
    assert m9[7] == t[7] && m9[8] == t[8];
  }

  /** The constructor's `SetStateNext` calls. */
  method DeclareStates(p: Parser)
    requires p.Valid() && p.stateMap == []
    modifies p
    ensures p.Valid() && p.stateMap == RcTable()[..5]
    ensures p.stack == old(p.stack) && p.top == old(p.top) && p.extraArgs == old(p.extraArgs)
  {
    p.SetStateNext(TagInit, [("config", TagConfig)]);
    p.SetStateNext(TagConfig, ConfigNext);
    p.SetStateNext(TagGraphics, GraphicsNext);
    p.SetStateNext(TagFavorites, [("favorite", TagFavorite)]);
    p.SetStateNext(TagFileAssoc, FileAssocNext);
    DeclaredStates();
  }

  /** The constructor's `SetStateAttr` calls. */
  method DeclareAttributes(p: Parser)
    requires p.Valid() && p.stateMap == RcTable()[..5]
    modifies p
    ensures p.Valid() && p.stateMap == RcTable()
    ensures p.stack == old(p.stack) && p.top == old(p.top) && p.extraArgs == old(p.extraArgs)
  {
    p.SetStateAttr(TagFont, ["name", "desc"]);
    p.SetStateAttr(TagColor, ["name", "r", "g", "b"]);
    p.SetStateAttr(TagFavorite, FavoriteAtts);
    p.SetStateAttr(TagPattern, PatternAtts);
    DeclaredAttributes();
  }

  class RcParser {
    const xml: Parser
    var favorites: seq<Favorite>
    var assocs: seq<FileAssoc>
    const regcomp: Compiler
    const wordexp: WordExpander

    ghost predicate Valid()
      reads this, xml
    {
      xml.Valid() && xml.stateMap == RcTable() && EveryRuleContains(assocs, Placeholder)
    }

    /** Declares the table, in the order the source does. */
    constructor(regcomp: Compiler, wordexp: WordExpander)
      ensures Valid() && fresh(xml)
      ensures xml.stack == [TagInit] && favorites == [] && assocs == []
      ensures this.regcomp == regcomp && this.wordexp == wordexp
    {
      this.regcomp := regcomp;
      this.wordexp := wordexp;
      favorites := [];
      assocs := [];
      var p := new Parser();
      xml := p;
      DeclareStates(p);
      DeclareAttributes(p);
    }

    /**
      The start handler: the table decides the state pushed, and a `favorite` or
      `pattern`/`extension` start event appends what its attributes describe.
     */
    method StartElement(name: String, atts: seq<Attribute>)
      requires Valid()
      modifies this, xml
      ensures Valid()
      ensures var next := NextState(RcTable(), old(xml.State()), name);
        && xml.stack == old(xml.stack) + [next]
        && favorites == old(favorites) + (if next == TagFavorite then OptSeq(RcFavorite(Project(FavoriteAtts, atts))) else [])
        && assocs == old(assocs) + (if next == TagPattern
                                    then OptSeq(RcRule(Project(PatternAtts, atts), name == "pattern", regcomp, wordexp)) else [])
    {
      var ev := xml.StartElement(name, atts);
      if ev.Some? {
        StartState(ev.value.state, ev.value.name, ev.value.atts);
      }
    }

    /** The end handler pops one state; this reader has no end actions. */
    method EndElement()
      requires Valid() && xml.Depth() >= 1
      modifies xml
      ensures Valid() && xml.stack == old(xml.stack)[..|old(xml.stack)| - 1]
    {
      var ended := xml.EndElement();
    }

    /** `StartState`: favorites and patterns are parsed; fonts and colours are not part
        of this model. */
    method StartState(state: int, name: String, vatts: seq<String>)
      requires state == TagFavorite ==> |vatts| == |FavoriteAtts|
      requires state == TagPattern ==> |vatts| == |PatternAtts|
      modifies this
      ensures favorites == old(favorites) + (if state == TagFavorite then OptSeq(RcFavorite(vatts)) else [])
      ensures assocs == old(assocs) + (if state == TagPattern then OptSeq(RcRule(vatts, name == "pattern", regcomp, wordexp)) else [])
    {
      if state == TagFavorite {
        ParseFavorite(vatts);
      } else if state == TagPattern {
        ParsePattern(vatts, name == "pattern");
      }
    }

    method ParseFavorite(vatts: seq<String>)
      requires |vatts| == |FavoriteAtts|
      modifies this
      ensures favorites == old(favorites) + OptSeq(RcFavorite(vatts)) && assocs == old(assocs)
    {
      var f := Favorite(Atoi(vatts[0]), vatts[1], vatts[2]);
      if f.id != 0 && f.name != [] && f.path != [] {
        favorites := favorites + [f];
      }
    }

    method ParsePattern(vatts: seq<String>, isRegex: bool)
      requires |vatts| == |PatternAtts|
      modifies this
      ensures assocs == old(assocs) + OptSeq(RcRule(vatts, isRegex, regcomp, wordexp)) && favorites == old(favorites)
    {
      var match_, ext, command, killable := vatts[0], vatts[1], vatts[2], vatts[3];
      if (isRegex && match_ == []) || (!isRegex && ext == []) {
        return;
      }
      var regex := if isRegex then match_ else ExtensionRegex(ext);
      if !regcomp(regex) {
        return;
      }
      var isKillable := KillableFlag(killable);
      var words: seq<String> := [];
      if command != [] {
        var expanded := wordexp(command);
        if expanded.Some? {
          words := expanded.value;
        }
      }
      var args := ArgsFromWords(words, Placeholder);
      assocs := assocs + [FileAssoc(regex, args, isKillable)];
    }
  }
}
