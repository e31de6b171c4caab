/**
  File associations: the first-match lookup over the ordered rule list
  (`FileAssoc::Match`, `MatchFile`), the argument vector handed to the process
  launcher (`MainWnd::Open`), and the pieces the configuration readers use to build a
  rule (the `\.ext$` regex, the killable flag, the implicit file placeholder).
  Regular expressions are compiled and matched by the C library; both are given here
  as functions on the pattern text.
 */
module Assoc {

  import opened Wrappers
  import opened Strings

  /** `regexec(regcomp(pattern), subject) == REG_NOERROR` for the flags the source uses. */
  type Matcher = (String, String) -> bool

  /** `regcomp` succeeds on the pattern (otherwise the rule's constructor throws). */
  type Compiler = String -> bool

  /** `wordexp` on a command line: its words, or `None` when it reports an error. */
  type WordExpander = String -> Option<seq<String>>

  /** An association of the two later revisions: its pattern, its argv template and
      whether the launched process may be terminated on request. */
  datatype FileAssoc = FileAssoc(regex: String, args: seq<String>, isKillable: bool)

  /** The file placeholder of the later revisions and of the first one. */
  const Placeholder: String := "{}"
  const DollarOne: String := "$1"

  function Regexes(assocs: seq<FileAssoc>): (r: seq<String>)
    ensures |r| == |assocs|
    ensures forall i :: 0 <= i < |assocs| ==> r[i] == assocs[i].regex
  {
    seq(|assocs|, i requires 0 <= i < |assocs| => assocs[i].regex)
  }

  /** The index of the first pattern at or after `from` that matches `name`. */
  function FirstMatchFrom(patterns: seq<String>, regexec: Matcher, name: String, from: nat): (r: Option<nat>)
    requires from <= |patterns|
    ensures r.Some? ==> from <= r.value < |patterns| && regexec(patterns[r.value], name)
    ensures r.Some? ==> forall j :: from <= j < r.value ==> !regexec(patterns[j], name)
    ensures r.None? <==> forall j :: from <= j < |patterns| ==> !regexec(patterns[j], name)
    decreases |patterns| - from
  {
    if from == |patterns| then None
    else if regexec(patterns[from], name) then Some(from)
    else FirstMatchFrom(patterns, regexec, name, from + 1)
  }

  /** First match in declaration order; `None` exactly when no pattern matches. */
  function FirstMatch(patterns: seq<String>, regexec: Matcher, name: String): (r: Option<nat>)
    ensures r.Some? ==> r.value < |patterns| && regexec(patterns[r.value], name)
    ensures r.Some? ==> forall j :: 0 <= j < r.value ==> !regexec(patterns[j], name)
    ensures r.None? <==> forall j :: 0 <= j < |patterns| ==> !regexec(patterns[j], name)
  {
    FirstMatchFrom(patterns, regexec, name, 0)
  }

  /**
    `FileAssoc::Match` / `MatchFile`: scans the rules in order and returns the index of
    the first whose regex matches (the source returns a pointer to it), or `None`.
   */
  method Match(patterns: seq<String>, regexec: Matcher, name: String) returns (r: Option<nat>)
    ensures r.Some? ==> r.value < |patterns| && regexec(patterns[r.value], name)
    ensures r.Some? ==> forall j :: 0 <= j < r.value ==> !regexec(patterns[j], name)
    ensures r.None? <==> forall j :: 0 <= j < |patterns| ==> !regexec(patterns[j], name)
    ensures r == FirstMatch(patterns, regexec, name)
  {
    for i := 0 to |patterns|
      invariant forall j :: 0 <= j < i ==> !regexec(patterns[j], name)
    {
      if regexec(patterns[i], name) {
        return Some(i);
      }
    }
    return None;
  }

  /**
    The argv built by `Open`: every token equal to the placeholder becomes the full
    path, every other token is passed unchanged.
   */
  function Substitute(args: seq<String>, placeholder: String, fullPath: String): (r: seq<String>)
    ensures |r| == |args|
    ensures forall i :: 0 <= i < |args| && args[i] == placeholder ==> r[i] == fullPath
    ensures forall i :: 0 <= i < |args| && args[i] != placeholder ==> r[i] == args[i]
  {
    if args == [] then []
    else [if args[0] == placeholder then fullPath else args[0]] + Substitute(args[1..], placeholder, fullPath)
  }

  /**
    The argv `Open` builds for the file `name` in `dir`: the first matching rule's
    arguments with every placeholder token replaced by the full path; `None` when no
    rule matches.
   */
  function OpenArgv(assocs: seq<FileAssoc>, regexec: Matcher, placeholder: String, dir: String, name: String)
    : (r: Option<seq<String>>)
    ensures r.None? <==> FirstMatch(Regexes(assocs), regexec, name).None?
    ensures r.Some? ==> |r.value| == |assocs[FirstMatch(Regexes(assocs), regexec, name).value].args|
  {
    match FirstMatch(Regexes(assocs), regexec, name)
    case None => None
    case Some(i) => Some(Substitute(assocs[i].args, placeholder, dir + "/" + name))
  }

  /** Every rule has a token equal to the placeholder. */
  predicate EveryRuleHolds(assocs: seq<FileAssoc>, placeholder: String)
  {
    forall i :: 0 <= i < |assocs| ==> placeholder in assocs[i].args
  }

  /** When every rule holds a token equal to the placeholder (what the corrected rule of
      `WithPlaceholderFixed` guarantees), every launched argv receives the file's full path. */
  lemma OpenPassesFile(assocs: seq<FileAssoc>, regexec: Matcher, placeholder: String, dir: String, name: String)
    requires EveryRuleHolds(assocs, placeholder)
    ensures var r := OpenArgv(assocs, regexec, placeholder, dir, name);
      r.Some? ==> r.value != [] && dir + "/" + name in r.value
  {
    var m := FirstMatch(Regexes(assocs), regexec, name);
    if m.Some? {
      var args := assocs[m.value].args;
      var k :| 0 <= k < |args| && args[k] == placeholder;
      assert Substitute(args, placeholder, dir + "/" + name)[k] == dir + "/" + name;
    }
  }

  /** `Open`'s argument loop: each token equal to the placeholder becomes the full path. */
  method BuildArgv(args: seq<String>, placeholder: String, fullPath: String) returns (argv: seq<String>)
    ensures argv == Substitute(args, placeholder, fullPath)
  {
    argv := [];
    for i := 0 to |args|
      invariant |argv| == i
      invariant forall k :: 0 <= k < i ==> argv[k] == if args[k] == placeholder then fullPath else args[k]
    {
      if args[i] == placeholder {
        argv := argv + [fullPath];
      } else {
        argv := argv + [args[i]];
      }
    }
  }

  /** The file reaches the launched process exactly when a token equals the placeholder
      (for a path that is not itself one of the other tokens). */
  lemma SubstitutePassesPath(args: seq<String>, placeholder: String, fullPath: String)
    requires fullPath !in args
    ensures fullPath in Substitute(args, placeholder, fullPath) <==> placeholder in args
  {
    var r := Substitute(args, placeholder, fullPath);
    if placeholder in args {
      var k :| 0 <= k < |args| && args[k] == placeholder;
      assert r[k] == fullPath;
    }
    if fullPath in r {
      var k :| 0 <= k < |r| && r[k] == fullPath;
      assert args[k] == placeholder;
    }
  }

  /** Some token contains the placeholder (`find("{}") != npos`). */
  predicate AnyContains(words: seq<String>, placeholder: String)
  {
    exists k :: 0 <= k < |words| && Contains(words[k], placeholder)
  }

  /** Every rule has a token containing the placeholder, as every rule the
      configuration readers build does. */
  predicate EveryRuleContains(assocs: seq<FileAssoc>, placeholder: String)
  {
    forall i :: 0 <= i < |assocs| ==> AnyContains(assocs[i].args, placeholder)
  }

  /** Appending a rule with a token containing the placeholder keeps the property. */
  lemma EveryRuleContainsSnoc(assocs: seq<FileAssoc>, rule: FileAssoc, placeholder: String)
    requires EveryRuleContains(assocs, placeholder) && AnyContains(rule.args, placeholder)
    ensures EveryRuleContains(assocs + [rule], placeholder)
  {
    forall i | 0 <= i < |assocs| + 1
      ensures AnyContains((assocs + [rule])[i].args, placeholder)
    {
      if i < |assocs| {
        assert (assocs + [rule])[i] == assocs[i];
      }
    }
  }

  /** When every rule has a token containing the placeholder, a matching rule never
      yields an empty argv: `Open` always has a program to launch. */
  lemma OpenArgvNeverEmpty(assocs: seq<FileAssoc>, regexec: Matcher, placeholder: String, dir: String, name: String)
    requires EveryRuleContains(assocs, placeholder)
    ensures var r := OpenArgv(assocs, regexec, placeholder, dir, name);
      r.Some? ==> r.value != []
  {
    var m := FirstMatch(Regexes(assocs), regexec, name);
    if m.Some? {
      assert AnyContains(assocs[m.value].args, placeholder);
    }
  }

  /** A word list contains the placeholder after one more word iff it did before or
      the new word contains it. */
  lemma AnyContainsSnoc(words: seq<String>, w: String, placeholder: String)
    ensures AnyContains(words + [w], placeholder) <==> AnyContains(words, placeholder) || Contains(w, placeholder)
  {
    var ws := words + [w];
    if AnyContains(words, placeholder) {
      var k :| 0 <= k < |words| && Contains(words[k], placeholder);
      assert ws[k] == words[k];
    }
    if Contains(w, placeholder) {
      assert ws[|words|] == w;
    }
    if AnyContains(ws, placeholder) {
      var k :| 0 <= k < |ws| && Contains(ws[k], placeholder);
      if k < |words| {
        assert ws[k] == words[k];
      }
    }
  }

  /**
    The rule builders' argv as written: the words of the command, followed by the
    placeholder unless some word already CONTAINS it.
   */
  function WithPlaceholder(words: seq<String>, placeholder: String): (args: seq<String>)
    ensures |words| <= |args| && args[..|words|] == words
    ensures AnyContains(words, placeholder) ==> args == words
    ensures !AnyContains(words, placeholder) ==> args == words + [placeholder]
    ensures AnyContains(args, placeholder)
  {
    if AnyContains(words, placeholder) then words
    else
      ContainsSelf(placeholder);
      assert Contains((words + [placeholder])[|words|], placeholder);
      words + [placeholder]
  }

  /**
    As written, a word that merely contains the placeholder stops it from being appended,
    but `Open` replaces only words EQUAL to it: a command such as `player --file={}`
    (or `--file=$1` with the earliest revision's placeholder) launches without the file.
   */
  lemma PlaceholderInsideWordIsLost(placeholder: String, prefix: String, fullPath: String)
    requires prefix != []
    requires fullPath != prefix + placeholder
    ensures var words := [prefix + placeholder];
      var args := WithPlaceholder(words, placeholder);
      && args == words
      && fullPath !in Substitute(args, placeholder, fullPath)
  {
    var words := [prefix + placeholder];
    ContainsSuffix(prefix, placeholder);
    assert Contains(words[0], placeholder);
    assert AnyContains(words, placeholder);
    assert words[0] != placeholder by {
      assert |words[0]| > |placeholder|;
    }
    var r := Substitute(words, placeholder, fullPath);
    assert r == words;
  }

  /** The corrected rule: append the placeholder unless some word EQUALS it. */
  function WithPlaceholderFixed(words: seq<String>, placeholder: String): (args: seq<String>)
    ensures |words| <= |args| && args[..|words|] == words
    ensures placeholder in args
    ensures |args| == if placeholder in words then |words| else |words| + 1
  {
    if placeholder in words then words else words + [placeholder]
  }

  /** The rule builders' word loop: copies the words and appends the placeholder when
      none of them contains it (`find(placeholder) != npos`). */
  method ArgsFromWords(words: seq<String>, placeholder: String) returns (args: seq<String>)
    ensures args == WithPlaceholder(words, placeholder)
  {
    args := [];
    var isFileArg := false;
    for i := 0 to |words|
      invariant args == words[..i]
      invariant isFileArg <==> AnyContains(words[..i], placeholder)
    {
      assert words[..i + 1] == words[..i] + [words[i]];
      AnyContainsSnoc(words[..i], words[i], placeholder);
      args := args + [words[i]];
      if Contains(words[i], placeholder) {
        isFileArg := true;
      }
    }
    assert words[..|words|] == words;
    if !isFileArg {
      args := args + [placeholder];
    }
  }

  /** With the corrected rule every launch receives the file's full path. */
  lemma FixedRuleAlwaysPassesPath(words: seq<String>, placeholder: String, fullPath: String)
    ensures fullPath in Substitute(WithPlaceholderFixed(words, placeholder), placeholder, fullPath)
  {
    var args := WithPlaceholderFixed(words, placeholder);
    var k :| 0 <= k < |args| && args[k] == placeholder;
    assert Substitute(args, placeholder, fullPath)[k] == fullPath;
  }

  /** The regex an `<extension ext="...">` rule matches with: a literal dot, the
      extension, then the end of the name. */
  function ExtensionRegex(ext: String): (r: String)
    ensures |r| == |ext| + 3
    ensures r[..2] == "\\." && r[2..|r| - 1] == ext && r[|r| - 1] == '$'
  {
    "\\." + ext + "$"
  }

  /** The killable attribute: a non-empty value that `atoi` reads as non-zero or that
      starts with `y` or `Y`. */
  predicate KillableFlag(v: String): (r: bool)
    ensures r ==> v != []
    ensures v != [] && (v[0] == 'y' || v[0] == 'Y') ==> r
    ensures v != [] && Atoi(v) != 0 ==> r
    ensures r ==> Atoi(v) != 0 || v[0] == 'y' || v[0] == 'Y'
  {
    v != [] && (Atoi(v) != 0 || v[0] == 'y' || v[0] == 'Y')
  }
}
