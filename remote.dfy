/**
  The earliest revision (`remote_browser`): its association rules (a regex, a command
  and the command's arguments, with `$1` standing for the file), the loop that reads
  them from the `<file_assoc>` element of its configuration, and its main window,
  which lists every visible file and knows no favorites.
 */
module Remote {

  import opened Wrappers
  import opened Strings
  import opened Entries
  import opened Assoc
  import opened Listing
  import opened Paths
  import opened Commands

  /** The placeholder of this revision. */
  const FileArg: String := "$1"

  /** The directory the window opens at start-up. */
  const StartDir: String := "/home/rodrigo"

  /** An association: the files `regex` matches are opened by `cmd` with `args`. */
  datatype RemoteAssoc = RemoteAssoc(regex: String, cmd: String, args: seq<String>)

  function Patterns(assocs: seq<RemoteAssoc>): (r: seq<String>)
    ensures |r| == |assocs|
    ensures forall i :: 0 <= i < |assocs| ==> r[i] == assocs[i].regex
  {
    seq(|assocs|, i requires 0 <= i < |assocs| => assocs[i].regex)
  }

  /** `MatchFile`: the first association whose regex matches, `None` when none does. */
  method MatchFile(assocs: seq<RemoteAssoc>, regexec: Matcher, file: String) returns (r: Option<nat>)
    ensures r.Some? ==> r.value < |assocs| && regexec(assocs[r.value].regex, file)
    ensures r.Some? ==> forall j :: 0 <= j < r.value ==> !regexec(assocs[j].regex, file)
    ensures r.None? <==> forall j :: 0 <= j < |assocs| ==> !regexec(assocs[j].regex, file)
  {
    r := Match(Patterns(assocs), regexec, file);
  }

  /**
    The argv `Open` spawns for the file `name` in `dir`: the matching rule's command,
    then its arguments with every `$1` token replaced by the full path.
   */
  function RemoteArgv(assocs: seq<RemoteAssoc>, regexec: Matcher, dir: String, name: String): (r: Option<seq<String>>)
    ensures r.None? <==> FirstMatch(Patterns(assocs), regexec, name).None?
    ensures r.Some? ==> var rule := assocs[FirstMatch(Patterns(assocs), regexec, name).value];
      |r.value| == 1 + |rule.args| && r.value[0] == rule.cmd
    ensures r.Some? ==> var rule := assocs[FirstMatch(Patterns(assocs), regexec, name).value];
      r.value[1..] == Substitute(rule.args, FileArg, dir + "/" + name)
  {
    match FirstMatch(Patterns(assocs), regexec, name)
    case None => None
    case Some(i) => Some([assocs[i].cmd] + Substitute(assocs[i].args, FileArg, dir + "/" + name))
  }

  /** With rules that hold a `$1` token, as the corrected loader guarantees, every
      launched command receives the file's full path as an argument. */
  lemma RemotePassesFile(assocs: seq<RemoteAssoc>, regexec: Matcher, dir: String, name: String)
    requires forall i :: 0 <= i < |assocs| ==> FileArg in assocs[i].args
    ensures var r := RemoteArgv(assocs, regexec, dir, name);
      r.Some? ==> dir + "/" + name in r.value[1..]
  {
    var m := FirstMatch(Patterns(assocs), regexec, name);
    if m.Some? {
      var rule := assocs[m.value];
      var k :| 0 <= k < |rule.args| && rule.args[k] == FileArg;
      var subst := Substitute(rule.args, FileArg, dir + "/" + name);
      assert subst[k] == dir + "/" + name;
      assert ([rule.cmd] + subst)[1..] == subst;
    }
  }

  /** The first child of an `<arg>` element: none (`<arg/>`), a text node, or
      something else (an element or a comment). */
  datatype ArgNode = NoChild | TextChild(text: String) | OtherChild

  /** A `<pattern>` element: its `match` (`matchAttr`) and `command` attributes when
      present, and its `<arg>` children in document order. */
  datatype PatternElem = PatternElem(matchAttr: Option<String>, command: Option<String>, args: seq<ArgNode>)

  /** The texts of the `<arg>` elements whose first child is a text node. */
  function ArgTexts(nodes: seq<ArgNode>): (r: seq<String>)
    ensures |r| <= |nodes|
    ensures forall t :: t in r <==> TextChild(t) in nodes
  {
    if nodes == [] then []
    else
      var init := ArgTexts(nodes[..|nodes| - 1]);
      var last := nodes[|nodes| - 1];
      assert nodes == nodes[..|nodes| - 1] + [last];
      if last.TextChild? then init + [last.text] else init
  }

  /** A pattern is read when both attributes are present and the regex compiles;
      otherwise the loop goes on with the next one. */
  predicate Accepted(p: PatternElem, regcomp: Compiler)
  {
    p.matchAttr.Some? && p.command.Some? && regcomp(p.matchAttr.value)
  }

  /** The rule read from one accepted pattern: `$1` is appended unless some argument
      contains it, and an `<arg/>` without children is skipped like any non-text child
      (the corrected treatment; as written it stops the program, see `LoadAsWritten`). */
  function RuleOf(p: PatternElem, regcomp: Compiler): (r: Option<RemoteAssoc>)
    ensures r.Some? <==> Accepted(p, regcomp)
    ensures r.Some? ==> r.value.regex == p.matchAttr.value && r.value.cmd == p.command.value
    ensures r.Some? ==> var texts := ArgTexts(p.args);
      AnyContains(r.value.args, FileArg) && |texts| <= |r.value.args| && r.value.args[..|texts|] == texts
  {
    if Accepted(p, regcomp) then
      Some(RemoteAssoc(p.matchAttr.value, p.command.value, WithPlaceholder(ArgTexts(p.args), FileArg)))
    else None
  }

  /** The rules the configuration loop builds, in document order. */
  function Loaded(pats: seq<PatternElem>, regcomp: Compiler): (r: seq<RemoteAssoc>)
    ensures |r| <= |pats|
  {
    if pats == [] then []
    else
      var init := Loaded(pats[..|pats| - 1], regcomp);
      var rule := RuleOf(pats[|pats| - 1], regcomp);
      if rule.Some? then init + [rule.value] else init
  }

  lemma LoadedSnoc(pats: seq<PatternElem>, i: nat, regcomp: Compiler)
    requires i < |pats|
    ensures var rule := RuleOf(pats[i], regcomp);
      Loaded(pats[..i + 1], regcomp) == Loaded(pats[..i], regcomp) + (if rule.Some? then [rule.value] else [])
  {
    assert pats[..i + 1][..i] == pats[..i];
  }

  /** Every loaded rule has an argument containing `$1` (not necessarily one equal to
      it, so the file is not always passed: see `PlaceholderInsideWordIsLost`). */
  lemma {:induction false} LoadedRulesHoldFileArg(pats: seq<PatternElem>, regcomp: Compiler)
    ensures forall i :: 0 <= i < |Loaded(pats, regcomp)| ==> AnyContains(Loaded(pats, regcomp)[i].args, FileArg)
    decreases |pats|
  {
    if pats != [] {
      LoadedRulesHoldFileArg(pats[..|pats| - 1], regcomp);
    }
  }

  /** The `<arg>` loop of one pattern: each text child becomes an argument, a child that
      is not text is skipped (an `<arg/>` too, corrected), and `$1` is appended when no
      argument contains it. */
  method ReadArgs(nodes: seq<ArgNode>) returns (args: seq<String>)
    ensures args == WithPlaceholder(ArgTexts(nodes), FileArg)
  {
    var texts := [];
    for i := 0 to |nodes|
      invariant texts == ArgTexts(nodes[..i])
    {
      assert nodes[..i + 1][..i] == nodes[..i];
      if nodes[i].TextChild? {
        texts := texts + [nodes[i].text];
      }
    }
    assert nodes[..|nodes|] == nodes;
    args := ArgsFromWords(texts, FileArg);
  }

  /** The configuration loop over the `<pattern>` elements of `<file_assoc>`. */
  method LoadAssocs(pats: seq<PatternElem>, regcomp: Compiler) returns (assocs: seq<RemoteAssoc>)
    ensures assocs == Loaded(pats, regcomp)
  {
    assocs := [];
    for i := 0 to |pats|
      invariant assocs == Loaded(pats[..i], regcomp)
    {
      LoadedSnoc(pats, i, regcomp);
      var pat := pats[i];
      if pat.matchAttr.None? || pat.command.None? {
        continue;
      }
      if !regcomp(pat.matchAttr.value) {
        continue;
      }
      var args := ReadArgs(pat.args);
      assocs := assocs + [RemoteAssoc(pat.matchAttr.value, pat.command.value, args)];
    }
    assert pats[..|pats|] == pats;
  }

  /**
    The loop as written: an `<arg/>` without children makes the loader dereference a
    null first child (`None`, the program stops), and `$1` is appended only when no
    argument CONTAINS it.
   */
  function LoadAsWritten(pats: seq<PatternElem>, regcomp: Compiler): (r: Option<seq<RemoteAssoc>>)
    ensures r.None? <==> exists i :: 0 <= i < |pats| && Accepted(pats[i], regcomp) && NoChild in pats[i].args
  {
    if pats == [] then Some([])
    else
      var init := LoadAsWritten(pats[..|pats| - 1], regcomp);
      var p := pats[|pats| - 1];
      assert forall i :: 0 <= i < |pats| - 1 ==> pats[..|pats| - 1][i] == pats[i];
      if init.None? then None
      else if !Accepted(p, regcomp) then init
      else if NoChild in p.args then None
      else Some(init.value + [RemoteAssoc(p.matchAttr.value, p.command.value, WithPlaceholder(ArgTexts(p.args), FileArg))])
  }

  /** Where the loop as written does not stop, it reads exactly the rules `Loaded`
      describes: the two differ only on `<arg/>`. */
  lemma {:induction false} LoadAsWrittenAgrees(pats: seq<PatternElem>, regcomp: Compiler)
    ensures LoadAsWritten(pats, regcomp).Some? ==> LoadAsWritten(pats, regcomp).value == Loaded(pats, regcomp)
  {
    if pats != [] {
      LoadAsWrittenAgrees(pats[..|pats| - 1], regcomp);
    }
  }

  /** A single `<arg/>` stops the program as written; the corrected loop skips it and
      the rule still receives the file. */
  lemma EmptyArgStopsLoader(regcomp: Compiler)
    requires regcomp("\\.ogg$")
    ensures var pats := [PatternElem(Some("\\.ogg$"), Some("ogg123"), [NoChild])];
      && LoadAsWritten(pats, regcomp).None?
      && Loaded(pats, regcomp) == [RemoteAssoc("\\.ogg$", "ogg123", [FileArg])]
  {
    var pats := [PatternElem(Some("\\.ogg$"), Some("ogg123"), [NoChild])];
    assert Accepted(pats[0], regcomp) && NoChild in pats[0].args;
    assert ArgTexts([NoChild]) == [];
    assert pats[..0] == [];
  }

  /** A comparison `strcoll` never consulted: this revision sorts byte-wise. */
  function NoCollation(a: String, b: String): int
  {
    0
  }

  class MainWnd {
    const assocs: seq<RemoteAssoc>
    const regexec: Matcher

    var cwd: String
    var lineSel: int
    var firstLine: int
    var files: seq<DirEntry>
    /** 0 while no child runs. */
    var childPid: int
    var childText: String

    ghost predicate Valid()
      reads this
    {
      IsNormal(cwd) && SelectionFits(lineSel, |files|) && childPid >= 0
    }

    /** The listing `list_dir` gives for `path`; no rule filters it. */
    function ListingAt(path: String, disk: Disk): seq<DirEntry>
    {
      ListingOf(RemoteBrowser, path, DirOf(disk, path), [], regexec, NoCollation)
    }

    function Child(): (int, String)
      reads this
    {
      (childPid, childText)
    }

    /** The window shows the fresh listing of `path`, normalised, with the selection on
        its first line. */
    ghost predicate ShowsFresh(path: String, disk: Disk)
      reads this
    {
      cwd == Normalize(path) && files == ListingAt(cwd, disk) && lineSel == 0 && firstLine == 0
    }

    /** Opens the start-up directory. */
    constructor (assocs: seq<RemoteAssoc>, regexec: Matcher, disk: Disk)
      ensures Valid()
      ensures this.assocs == assocs && this.regexec == regexec
      ensures ShowsFresh(StartDir, disk) && Child() == (0, [])
    {
      this.assocs := assocs;
      this.regexec := regexec;
      cwd := Root;
      lineSel, firstLine := 0, 0;
      files := [];
      childPid, childText := 0, [];
      new;
      ChangePath(StartDir, disk);
    }

    /** Moves the selection one line down or up, clamped to the listing. */
    method Move(down: bool)
      requires Valid()
      modifies this
      ensures Valid()
      ensures lineSel == Clamp(old(lineSel) + (if down then 1 else -1), |files|)
      ensures cwd == old(cwd) && files == old(files) && firstLine == old(firstLine) && Child() == old(Child())
    {
      if down {
        lineSel := lineSel + 1;
        if lineSel >= |files| {
          lineSel := |files| - 1;
        }
      } else {
        lineSel := lineSel - 1;
        if lineSel < 0 {
          lineSel := 0;
        }
      }
    }

    /**
      Acts on the selected entry: `..` goes to the part of the path before its last
      slash (the root when there is none), a directory is entered by appending its
      name (even at the root), a file is opened.
     */
    method Select(disk: Disk, spawned: Option<Pid>) returns (argv: Option<seq<String>>)
      requires Valid()
      modifies this
      ensures Valid()
      ensures !(0 <= old(lineSel) < |old(files)|) ==> unchanged(this) && argv.None?
      ensures 0 <= old(lineSel) < |old(files)| ==>
        var e := old(files)[old(lineSel)];
        && (e.isDir && e.name == DotDot ==>
              var up := match SplitLast(old(cwd)) case None => Root case Some(split) => split.0;
              ShowsFresh(up, disk) && Child() == old(Child()) && argv.None?)
        && (e.isDir && e.name != DotDot ==>
              ShowsFresh(old(cwd) + "/" + e.name, disk) && Child() == old(Child()) && argv.None?)
        && (!e.isDir ==>
              && argv == RemoteArgv(assocs, regexec, old(cwd), e.name)
              && cwd == old(cwd) && files == old(files) && lineSel == old(lineSel) && firstLine == old(firstLine)
              && Child() == if argv.Some? && spawned.Some? then (spawned.value, e.name) else old(Child()))
    {
      argv := None;
      if lineSel < 0 || lineSel >= |files| {
        return;
      }
      var entry := files[lineSel];
      if entry.isDir {
        if entry.name == DotDot {
          var slash := LastIndexOf(cwd, '/');
          if slash.Some? {
            ChangePath(cwd[..slash.value], disk);
          } else {
            ChangePath(Root, disk);
          }
        } else {
          ChangePath(cwd + "/" + entry.name, disk);
        }
      } else {
        argv := Open(entry.name, spawned);
      }
    }

    /** Shows `path`, normalised, with the selection reset. */
    method ChangePath(path: String, disk: Disk)
      requires Valid()
      modifies this
      ensures Valid()
      ensures ShowsFresh(path, disk)
      ensures Child() == old(Child())
    {
      cwd := NormalizePath(path);
      files := ListDir(RemoteBrowser, cwd, disk, [], regexec, NoCollation);
      lineSel, firstLine := 0, 0;
    }

    /** Opens the file `name` of the current directory with its first matching rule;
        only a successful spawn records the child. */
    method Open(name: String, spawned: Option<Pid>) returns (argv: Option<seq<String>>)
      requires Valid()
      modifies this
      ensures Valid()
      ensures argv == RemoteArgv(assocs, regexec, cwd, name)
      ensures cwd == old(cwd) && files == old(files) && lineSel == old(lineSel) && firstLine == old(firstLine)
      ensures Child() == if argv.Some? && spawned.Some? then (spawned.value, name) else old(Child())
    {
      var fullPath := cwd + "/" + name;
      var m := MatchFile(assocs, regexec, name);
      assert m == FirstMatch(Patterns(assocs), regexec, name);
      if m.None? {
        return None;
      }
      var assoc := assocs[m.value];
      var rest := BuildArgv(assoc.args, FileArg, fullPath);
      argv := Some([assoc.cmd] + rest);
      if spawned.Some? {
        childPid := spawned.value;
        childText := name;
      }
    }

    /** The child watch: forgets the child when the process that ended is it. */
    method OnChildWatch(pid: Pid)
      requires Valid()
      modifies this
      ensures Valid()
      ensures Child() == if old(childPid) == pid then (0, []) else old(Child())
      ensures cwd == old(cwd) && files == old(files) && lineSel == old(lineSel) && firstLine == old(firstLine)
    {
      if childPid == pid {
        childPid := 0;
        childText := [];
      }
    }

    /** The draw handler's viewport step, for the `lines` that fit: scrolls so the
        selection is visible. */
    method AdjustViewport(lines: int)
      requires Valid()
      modifies this
      ensures Valid()
      ensures firstLine == ScrollToSelection(lineSel, old(firstLine), lines)
      ensures cwd == old(cwd) && files == old(files) && lineSel == old(lineSel) && Child() == old(Child())
    {
      if lineSel < firstLine {
        firstLine := lineSel;
      }
      if lineSel >= firstLine + lines {
        firstLine := lineSel - lines + 1;
      }
    }
  }
}
