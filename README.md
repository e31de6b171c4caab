# Remote-control file browser: a Dafny model

This project models the core of a small file browser that is driven by an infrared
remote control through LIRC. The program shows one directory at a time. The remote
moves a selection line. Choosing a directory enters it, and choosing `..` goes back.
Choosing a file starts the program that a file association names for that file. The
repository holds three revisions of this program:

- `remote_browser`: the first one. It sorts names byte-wise, lists every
  non-hidden entry, and reads its associations from `remote_browser.rc` (a TinyXML
  document).
- `rcbrowser`: adds favorites, per-file-type filtering, killable children and
  `wordexp` argv expansion. It reads `~/.rcbrowser` with a hand-written expat state machine.
- `rclauncher`: adds locale collation (`strcoll`), page movement and a `quit`
  command. It reads its configuration through the
  generic table-driven parser `Simple_XML_Parser`.

The model is split as follows:

| module | models |
|---|---|
| `Entries` | directory entries, the three `operator<` variants as a `Order` datatype, and `std::sort` as an insertion sort proved sorted and a permutation |
| `Listing` | `list_dir` for the three revisions: the `d_type`/`stat` classification, the hidden-name and pattern filters, the `..` entry, the sort. `ListDir` is the `readdir` loop |
| `Assoc` | first-match association lookup (`FileAssoc::Match`), argv substitution of the `{}`/`$1` placeholder, and the placeholder rule applied when reading a configuration |
| `Paths` | path normalisation in `ChangePath`, `Back`'s split at the last `/`, favorites by prefix and by number, the title line, viewport scrolling and clamping of the selection |
| `Commands` | parsing of the remote's command words, including `fav <n>` |
| `Launcher`, `Browser`, `Remote` | the `MainWnd` class of each revision, as a Dafny class whose fields are the window's state |
| `Xml` | attributes and start/end/text events as expat delivers them |
| `SimpleXml` | the `Simple_XML_Parser` class: state table, stack, attribute projection, extra arguments |
| `LauncherConfig` | `rclauncher`'s `RCParser`: the state table it declares and the favorites and rules it appends |
| `BrowserConfig` | `rcbrowser`'s `RBParser`: its state stack and the favorites and rules it appends |

The following outside calls become parameters:

- `regexec` and `regcomp` become `Matcher` and `Compiler`.
- `wordexp` becomes `WordExpander`.
- `strcoll` becomes a comparison function.
- `opendir`, `readdir` and `stat` become a `Disk` map from a path to what `readdir` and `stat` report for its children.
- The outcome of `g_spawn_async` becomes a `spawned: Option<Pid>` argument.

A `kill` is not performed. `OnLircCommand` returns it as an `Effect`, together with the argv to spawn and the request to leave the main loop.

## Model

| member | source | states |
|---|---|---|
| Entries.LexStrictTotalOrder | src/remote_browser.cpp:86-93 | byte-wise `std::string` comparison is irreflexive, transitive and total |
| Entries.LexLess | src/remote_browser.cpp:86-93 | byte-wise `std::string` `<`: never between equal strings; a proper prefix sorts first, a string never before its own prefix |
| Entries.LessIsStrictWeakOrder | src/rclauncher.cpp:139-152 | every revision's `operator<` is a strict weak ordering (as `std::sort` requires) when `strcoll` is a consistent collation |
| Entries.Less | src/rclauncher.cpp:139-152 | every revision puts directories before files, and the two later ones put `..` before every other directory |
| Entries.NotLessTransitive | src/rclauncher.cpp:139-152 | incomparability of entries is transitive under a valid order |
| Entries.ByteOrdersAreTotal | src/rcbrowser.cpp:134-146 | the two byte-wise orders rank every pair of distinct entries |
| Entries.ByteOrderCanPutDirBeforeParent | src/remote_browser.cpp:86-93 | byte-wise order ranks directory `-a` before `..`, the parent-first order does not |
| Entries.Insert | src/rclauncher.cpp:210 | inserting adds exactly one element (multiset) |
| Entries.SortBy | src/rclauncher.cpp:210 | sorting is a permutation of its input |
| Entries.InsertSorted | src/rclauncher.cpp:210 | insertion into a sorted list keeps it sorted |
| Entries.InsertedNotBelowHead | src/rclauncher.cpp:210 | inserting past the head of a sorted list leaves nothing below that head |
| Entries.SortedCons | src/rclauncher.cpp:210 | a head no later entry sorts below keeps a sorted list sorted |
| Entries.SortBySorted | src/rclauncher.cpp:210 | the sort's result is sorted for every valid order |
| Entries.SortedHeadIsLeast | src/rclauncher.cpp:210 | no element of a sorted list sorts before its head |
| Entries.SortedUnique | src/rcbrowser.cpp:204 | with a byte-wise order, two sorted permutations of the same entries are equal, so the listing does not depend on the sort algorithm |
| Entries.SortedSameHead | src/rcbrowser.cpp:204 | with a byte-wise order, two sorted permutations of the same entries start with the same entry |
| Entries.SortedTail | src/rclauncher.cpp:210 | a sorted list's tail is sorted |
| Entries.SortedDirsFirst | src/rclauncher.cpp:141-144 | in a sorted listing every entry before a directory is a directory |
| Entries.SortedParentFirst | src/rclauncher.cpp:145-149 | in the two later revisions `..` is first when present |
| Listing.OrderOf | src/remote_browser.cpp:86-93 | the first revision sorts byte-wise, only the launcher collates |
| Listing.Classify | src/rclauncher.cpp:167-185 | unknown `d_type` asks `stat`; a symlink is followed only by the launcher; otherwise `d_type` decides |
| Listing.LinkedDirectoryOnlyInLauncher | src/rclauncher.cpp:169-185 | a symlink to a directory is listed as a directory by the launcher and skipped by the two earlier revisions |
| Listing.Keep | src/rclauncher.cpp:187-205 | kept entries are neither `.` nor `..`; directories and (first revision) all entries are not hidden; files must match an association |
| Listing.Collect | src/rclauncher.cpp:165-206 | the readdir loop keeps at most one entry per child |
| Listing.CollectMembers | src/rclauncher.cpp:165-206 | an entry is collected iff some child is kept as that entry |
| Listing.Base | src/rclauncher.cpp:158-159 | `..` is added iff the path is not `/` |
| Listing.ListingOf | src/rclauncher.cpp:155-211 | the listing is a permutation of `..` (if any) plus the kept children; an unreadable directory gives only `..` |
| Listing.ReadChild | src/rclauncher.cpp:167-205 | one loop iteration keeps the child exactly as `Keep` says |
| Listing.CollectChildren | src/rclauncher.cpp:165-206 | the readdir loop computes `Collect` |
| Listing.ListDir | src/rclauncher.cpp:155-211 | `list_dir` returns the specified listing of the directory the disk holds at `path` |
| Listing.ListingMembers | src/rcbrowser.cpp:149-205 | an entry is listed iff it is `..` off the root or a kept child |
| Listing.ParentListedIffNotRoot | src/remote_browser.cpp:99-100 | `..` is listed iff the path is not `/`, and it is the only entry named `..` |
| Listing.NoHiddenEntries | src/remote_browser.cpp:128-134 | no listed entry is empty or `.`; no listed directory other than `..` is hidden; the first revision lists nothing hidden |
| Listing.FilesListedIffMatched | src/rcbrowser.cpp:181-199 | in the later revisions a file is listed iff a child of that name is a regular file matching an association |
| Listing.ListingSorted | src/rclauncher.cpp:210 | the listing is sorted, directories come first, and `..` heads it in the later revisions |
| Listing.ByteOrderSortsDashFirst | src/remote_browser.cpp:144 | byte-wise sort puts `-a` before `..` |
| Listing.RemoteParentNotFirst | src/remote_browser.cpp:96-145 | the first revision's listing of a directory holding `-a` does not start with `..` |
| Strings.LastIndexOf | src/rclauncher.cpp:462 | `rfind`: the last position holding the character, or none |
| Strings.DigitRun | src/rclauncher.cpp:829 | `atoi` reads the longest run of leading digits |
| Strings.SkipSpace | src/rclauncher.cpp:829 | `atoi` skips leading white space |
| Strings.Atoi | src/rclauncher.cpp:829 | `atoi` is negative only when a `-` sign follows the leading white space |
| Strings.AtoiDigits | src/rclauncher.cpp:829 | a string of decimal digits reads as its decimal value |
| Assoc.Regexes | src/rclauncher.cpp:256-265 | the patterns of the associations, in order |
| Assoc.FirstMatchFrom | src/rclauncher.cpp:256-265 | the first pattern from a position on that matches, or none iff none matches |
| Assoc.FirstMatch | src/rclauncher.cpp:256-265 | `FileAssoc::Match`: the first matching association, none iff none matches |
| Assoc.Match | src/rcbrowser.cpp:250-259 | the lookup loop returns the first match |
| Assoc.Substitute | src/rclauncher.cpp:548-558 | every argument equal to the placeholder becomes the full path, the others are kept |
| Assoc.OpenArgv | src/rclauncher.cpp:532-558 | no argv iff no association matches; otherwise one argument per template word |
| Assoc.OpenPassesFile | src/rclauncher.cpp:532-558 | when every rule holds the placeholder, the argv is non-empty and holds `dir/name` |
| Assoc.OpenArgvNeverEmpty | src/rclauncher.cpp:548-567 | when every rule has a word containing the placeholder, a found argv is never empty |
| Assoc.BuildArgv | src/rcbrowser.cpp:515-524 | the argv-building loop computes the substitution |
| Assoc.SubstitutePassesPath | src/rclauncher.cpp:548-558 | the path reaches the argv iff the template holds the placeholder as a whole word |
| Assoc.WithPlaceholder | src/rclauncher.cpp:936-945 | the rule as read: the words, plus the placeholder appended iff no word contains it |
| Assoc.PlaceholderInsideWordIsLost | src/rclauncher.cpp:936-945 | a word such as `--file={}` suppresses the appended `{}`, and the opened file never reaches the argv |
| Assoc.WithPlaceholderFixed | src/rclauncher.cpp:936-945 | corrected: the placeholder is appended iff no word equals it, so it is always a whole word |
| Assoc.ArgsFromWords | src/rcbrowser.cpp:866-877 | the argument loop computes the rule as read (`WithPlaceholder`, the contains test) |
| Assoc.FixedRuleAlwaysPassesPath | src/rclauncher.cpp:548-558 | with the corrected rule the full path always reaches the argv |
| Assoc.ExtensionRegex | src/rcbrowser.cpp:844-850 | an `<extension>` becomes `\.` + extension + `$` |
| Assoc.KillableFlag | src/rclauncher.cpp:923-924 | a flag makes the rule killable exactly when it is non-empty and either reads as a non-zero number or starts with `y` or `Y` |
| Paths.StripTrailingSlashes | src/rclauncher.cpp:485-486 | trailing slashes removed, a non-empty result |
| Paths.Normalize | src/rclauncher.cpp:482-486 | the working directory `ChangePath` stores is a normal prefix of the path, `/` for an empty path |
| Paths.ChildPath | src/rclauncher.cpp:449-451 | the entered path ends in `/` and the entry name, after the working directory (cleared at the root, so no double slash) |
| Paths.NormalizePath | src/rclauncher.cpp:482-486 | the trailing-slash loop computes `Normalize` |
| Paths.NormalizeIdempotent | src/rclauncher.cpp:482-486 | normalising twice changes nothing; a path is normal iff it normalises to itself |
| Paths.SlashesNormalizeToRoot | src/rclauncher.cpp:482-486 | a path made only of slashes becomes `/` |
| Paths.SplitLast | src/rclauncher.cpp:462-466 | the split at the last `/` gives a parent and a leaf that rebuild the path |
| Paths.BackUndoesSelect | src/rclauncher.cpp:436-478 | going back from a directory entered by `Select` returns to the same directory with the leaf as the name to reselect |
| Paths.RootChildKeepsDoubleSlash | src/remote_browser.cpp:316-332 | entering `home` from `/` by plain concatenation gives `//home`; the later revisions give `/home` |
| Paths.FavoriteByPrefix | src/rclauncher.cpp:492-503 | the selected favorite is an index into the favorites, or -1 |
| Paths.FavoriteByPrefixFinds | src/rclauncher.cpp:492-503 | the first favorite whose path is a character prefix of the new path, -1 iff none |
| Paths.FindFavoriteByPrefix | src/rclauncher.cpp:494-503 | the favorite loop computes `FavoriteByPrefix` |
| Paths.FavoriteById | src/rclauncher.cpp:510-517 | the favorite found is an index into the favorites |
| Paths.FavoriteByIdFinds | src/rclauncher.cpp:510-517 | the first favorite with that number, none iff none |
| Paths.FindFavoriteById | src/rcbrowser.cpp:486-493 | the favorite loop computes `FavoriteById` |
| Paths.Title | src/rclauncher.cpp:751-765 | the title is the working directory, or the favorite's name and the rest of the path under it |
| Paths.PrefixFavoriteCoversSibling | src/rclauncher.cpp:492-503 | a favorite `/media/music` is selected for `/media/music2`, whose title reads `Music: 2` |
| Paths.ScrollToSelection | src/rclauncher.cpp:665-668 | the first visible line moves the least distance that shows the selection |
| Paths.Clamp | src/rclauncher.cpp:426-434 | the selection stays within the listing, -1 or 0 when the listing is empty |
| Paths.IndexOfName | src/rclauncher.cpp:466-473 | the reselected line is 0 or a line of the listing |
| Paths.IndexOfNameFinds | src/rclauncher.cpp:466-473 | the first entry with the leaf's name, 0 when none |
| Paths.FindName | src/rclauncher.cpp:466-473 | the reselect loop computes `IndexOfName` |
| Commands.FavNumber | src/rclauncher.cpp:827-829 | `fav <n>` is recognised iff the command is longer than 4 and starts with `fav `; the number is `atoi` of the rest |
| Commands.FavCommandExamples | src/rclauncher.cpp:827-829 | `fav 3` selects favorite 3; `fav ` and `favorite` are not favorite commands |
| Commands.WordsAreNotFav | src/rclauncher.cpp:813-833 | none of the command words is a favorite command |
| Commands.LauncherCommand | src/rclauncher.cpp:813-836 | the launcher's word dispatch; unknown iff none of its eight words nor `fav <n>` |
| Commands.BrowserCommand | src/rcbrowser.cpp:738-754 | the browser's dispatch: no paging and no quit; unknown iff none of its five words nor `fav <n>` |
| Commands.SharedCommandsAgree | src/rcbrowser.cpp:738-754 | every command the browser knows means the same to the launcher |
| Launcher.NonEmpty | src/rclauncher.cpp:561-567 | the launcher refuses an empty argv |
| Launcher.EmptyArgvGuardIsDead | src/rclauncher.cpp:561-567 | when every rule has a word containing `{}` (as the configuration parser guarantees), the empty-argv guard never fires |
| Launcher.MainWnd.constructor | src/rclauncher.cpp:312-338 | starts at favorite 1, or at `.` when there is none; no child runs |
| Launcher.MainWnd.Move | src/rclauncher.cpp:426-434 | the selection moves by the increment, clamped to the listing; nothing else changes |
| Launcher.MainWnd.Select | src/rclauncher.cpp:436-458 | launches exactly `SelectArgv`; `..` goes back; a directory is entered and listed afresh; a file is opened unless only directories are wanted, and a spawned child is recorded with its name and killable flag |
| Launcher.MainWnd.SelectArgv | src/rclauncher.cpp:436-458 | an argv is launched only for a selected file, and only when files may be opened |
| Launcher.MainWnd.Back | src/rclauncher.cpp:460-478 | lists the parent and reselects the directory just left; a path without `/` goes to `/` |
| Launcher.MainWnd.ChangePath | src/rclauncher.cpp:480-506 | stores the normalised path, lists it, resets the view, and reselects the favorite by prefix when asked |
| Launcher.MainWnd.ChangeFavorite | src/rclauncher.cpp:508-524 | found iff a favorite has the number; then its path is shown; otherwise nothing changes |
| Launcher.MainWnd.Open | src/rclauncher.cpp:532-580 | the argv of the first matching association, none when no match or empty; a spawned child is recorded with its name and killability |
| Launcher.MainWnd.OnChildWatch | src/rclauncher.cpp:582-593 | the child is forgotten iff its pid ends |
| Launcher.MainWnd.AdjustViewport | src/rclauncher.cpp:665-668 | stores the line count and scrolls to show the selection |
| Launcher.MainWnd.TitleLine | src/rclauncher.cpp:751-765 | the working directory when no favorite is current |
| Launcher.MainWnd.OnLircCommand | src/rclauncher.cpp:804-837 | while a child runs only `kill` of a killable child acts; otherwise the command word acts as `Dispatch` states |
| Launcher.MainWnd.Dispatch | src/rclauncher.cpp:813-836 | movement clamps the selection and changes nothing else (scroll, page size, child); `ok` selects and spawns exactly the argv `Select` launched; `right` selects without opening; `left` goes back and leaves the child alone; `fav N` shows that favorite (nothing changes when none has the number); `quit` alone ends the loop; no command kills |
| Browser.MainWnd.constructor | src/rcbrowser.cpp:301-320 | starts at favorite 1, or at `.` when there is none |
| Browser.MainWnd.Move | src/rcbrowser.cpp:396-411 | the selection moves one line, clamped to the listing |
| Browser.MainWnd.Select | src/rcbrowser.cpp:413-435 | as the launcher's, with an unguarded open: launches exactly `SelectArgv` and records a spawned child |
| Browser.MainWnd.SelectArgv | src/rcbrowser.cpp:413-435 | an argv is launched only for a selected file, and only when files may be opened |
| Browser.MainWnd.Back | src/rcbrowser.cpp:437-455 | lists the parent and reselects the directory just left |
| Browser.MainWnd.ChangePath | src/rcbrowser.cpp:457-482 | stores the normalised path, lists it, resets the view, reselects the favorite by prefix when asked |
| Browser.MainWnd.ChangeFavorite | src/rcbrowser.cpp:484-500 | found iff a favorite has the number; then its path is shown |
| Browser.MainWnd.Open | src/rcbrowser.cpp:502-536 | the argv of the first matching association; a spawned child is recorded |
| Browser.MainWnd.OnChildWatch | src/rcbrowser.cpp:538-548 | the child is forgotten iff its pid ends |
| Browser.MainWnd.AdjustViewport | src/rcbrowser.cpp:598-601 | scrolls to show the selection |
| Browser.MainWnd.TitleLine | src/rcbrowser.cpp:674-688 | the working directory when no favorite is current |
| Browser.MainWnd.OnLircCommand | src/rcbrowser.cpp:729-755 | while a child runs only `kill` of a killable child acts; otherwise the command word acts as `Dispatch` states |
| Browser.MainWnd.Dispatch | src/rcbrowser.cpp:738-754 | `up`/`down` move one line and change nothing else (scroll, child); `ok` selects and spawns exactly the argv `Select` launched; `right` selects without opening; `left` goes back and leaves the child alone; `fav N` shows that favorite; nothing quits or kills |
| Remote.MatchFile | src/remote_browser.cpp:191-200 | the first association whose pattern matches, none iff none |
| Remote.RemoteArgv | src/remote_browser.cpp:339-363 | no argv when no pattern matches; otherwise the first matching rule's command followed by its arguments with every `$1` replaced by the full path |
| Remote.RemotePassesFile | src/remote_browser.cpp:353-363 | when every rule holds `$1`, the file reaches the argv |
| Remote.ArgTexts | src/remote_browser.cpp:551-560 | exactly the texts of the `<arg>` elements that start with a text node |
| Remote.RuleOf | src/remote_browser.cpp:544-563 | a pattern with `match` and `command` that compiles becomes a rule whose arguments are the texts, with `$1` appended unless one of them contains it |
| Remote.Loaded | src/remote_browser.cpp:540-570 | the loader reads at most one rule per pattern |
| Remote.LoadedRulesHoldFileArg | src/remote_browser.cpp:557-563 | every loaded rule has an argument containing `$1` |
| Remote.ReadArgs | src/remote_browser.cpp:551-563 | the `<arg>` loop collects the texts and appends `$1` unless one contains it |
| Remote.LoadAssocs | src/remote_browser.cpp:540-570 | the loader loop computes `Loaded` |
| Remote.LoadAsWritten | src/remote_browser.cpp:540-570 | the loader as written stops iff an accepted pattern has an empty `<arg/>` |
| Remote.LoadAsWrittenAgrees | src/remote_browser.cpp:540-570 | whenever the loader as written finishes, it reads the same rules as `Loaded` |
| Remote.EmptyArgStopsLoader | src/remote_browser.cpp:554 | one `<arg/>` stops the loader as written, while the corrected loader reads the rule with `$1` |
| Remote.MainWnd.constructor | src/remote_browser.cpp:236-254 | starts listing the fixed start directory with no child |
| Remote.MainWnd.Move | src/remote_browser.cpp:282-297 | the selection moves one line, clamped to the listing |
| Remote.MainWnd.Select | src/remote_browser.cpp:299-323 | `..` lists the parent (no reselection); a directory is entered by plain concatenation; a file is opened and a spawned child is recorded with its name |
| Remote.MainWnd.ChangePath | src/remote_browser.cpp:325-337 | stores the normalised path, lists it and resets the view |
| Remote.MainWnd.Open | src/remote_browser.cpp:339-369 | the argv of the first matching association; a spawned child is recorded |
| Remote.MainWnd.OnChildWatch | src/remote_browser.cpp:371-381 | the child is forgotten iff its pid ends |
| Remote.MainWnd.AdjustViewport | src/remote_browser.cpp:432-435 | scrolls to show the selection |
| Xml.LastValue | src/rcbrowser.cpp:811-827 | the value of the last attribute with that name, none iff absent |
| Xml.Replay | src/rcbrowser.cpp:765-806 | replaying events keeps the bottom of the state stack |
| Xml.ReplayDepth | src/rcbrowser.cpp:765-806 | on well-nested events the stack grows by opens minus closes |
| SimpleXml.Slot | util/xml/simplexmlparse.h:179-193 | `Find` without insertion finds slot `state + 1` iff it exists |
| SimpleXml.FirstNextFinds | util/xml/simplexmlparse.h:168-176 | the state of the first transition with that name, `TAG_NONE` if none |
| SimpleXml.FindNext | util/xml/simplexmlparse.h:168-176 | the transition loop computes `FirstNext` |
| SimpleXml.Grown | util/xml/simplexmlparse.h:179-193 | `Find` with insertion extends the table with empty slots up to the state |
| SimpleXml.GrownSlots | util/xml/simplexmlparse.h:25-59 | a declaration grows the table to hold the state and extends that slot's names or transitions, every other slot unchanged or empty |
| SimpleXml.NextState | util/xml/simplexmlparse.h:112-122 | the pushed state: `TAG_NONE` under an unknown state, else the first transition |
| SimpleXml.Assign | util/xml/simplexmlparse.h:124-133 | an attribute fills every declared position of its name |
| SimpleXml.Project | util/xml/simplexmlparse.h:124-136 | one value per declared attribute |
| SimpleXml.ProjectHoldsDeclaredValues | util/xml/simplexmlparse.h:124-136 | each declared position holds the last value given for it, or empty |
| SimpleXml.Undeclared | util/xml/simplexmlparse.h:124-136 | the corrected extra arguments are at most the given ones |
| SimpleXml.UndeclaredMembers | util/xml/simplexmlparse.h:124-136 | corrected: an attribute is extra iff its name is not declared |
| SimpleXml.ExtraArgsAsWritten | util/xml/simplexmlparse.h:129-135 | as written, no extra arguments at all when nothing is declared |
| SimpleXml.ExtraArgValue | util/xml/simplexmlparse.h:91-97 | the first extra argument of that name, or the default |
| SimpleXml.ExtraArgsAsWrittenMisreport | util/xml/simplexmlparse.h:129-135 | as written an undeclared attribute is lost and a declared one is reported extra |
| SimpleXml.Parser.Depth | util/xml/simplexmlparse.h:67-70 | depth is the stack size minus one |
| SimpleXml.Parser.constructor | util/xml/simplexmlparse.h:18-21 | an empty table and the initial state at depth 0 |
| SimpleXml.Parser.PostReset | util/xml/simplexmlparse.h:107-111 | the stack is reset to the initial state |
| SimpleXml.Parser.Find | util/xml/simplexmlparse.h:179-193 | looks up or grows the table slot of a state |
| SimpleXml.Parser.SetStateAttr | util/xml/simplexmlparse.h:25-41 | appends attribute names to the state's slot |
| SimpleXml.Parser.SetStateNext | util/xml/simplexmlparse.h:42-59 | appends transitions to the state's slot |
| SimpleXml.Parser.SetStateCharData | util/xml/simplexmlparse.h:60-66 | sets the state's character-data flag |
| SimpleXml.Parser.Top | util/xml/simplexmlparse.h:195-204 | the top state and its slot, cached afterwards |
| SimpleXml.Parser.Push | util/xml/simplexmlparse.h:205-209 | pushes a state with its slot |
| SimpleXml.Parser.Pop | util/xml/simplexmlparse.h:210-214 | pops one state and clears the cache |
| SimpleXml.Parser.StartElement | util/xml/simplexmlparse.h:112-141 | pushes the next state; fires iff it has a slot, with the projected attributes and the extra arguments as the loop computes them (`ExtraArgsAsWritten`) |
| SimpleXml.Parser.Lookup | util/xml/simplexmlparse.h:112-122 | the next state comes from the top state's transitions, with a descriptor iff it is real and has a slot |
| SimpleXml.Parser.ProjectAll | util/xml/simplexmlparse.h:124-136 | the attribute loops compute the projection and `ExtraArgsAsWritten` |
| SimpleXml.Parser.AssignOne | util/xml/simplexmlparse.h:128-135 | one attribute fills its declared positions and is pushed once per declared name it differs from |
| SimpleXml.Parser.EndElement | util/xml/simplexmlparse.h:142-148 | reports a real state and pops it |
| SimpleXml.Parser.CharData | util/xml/simplexmlparse.h:149-155 | reports the top state iff it asked for character data |
| SimpleXml.Parser.GetExtraArg | util/xml/simplexmlparse.h:91-97 | the search loop computes `ExtraArgValue` |
| LauncherConfig.RcTableRoutes | src/rclauncher.cpp:846-852 | the declared table routes `config`, then `favorites`, `file_assoc`, then `favorite`, `pattern` and `extension` |
| LauncherConfig.RcTable | src/rclauncher.cpp:844-859 | the table has `TAG_INIT` and the eight states; only leaves `font`, `color`, `favorite` and `pattern` declare attributes; leaves have no transitions; no state asks for character data |
| LauncherConfig.RcTableLeaves | src/rclauncher.cpp:855-858 | `favorite` and `pattern` fire with their declared attributes; their children and anything under an unknown element get `TAG_NONE` |
| LauncherConfig.RcFavorite | src/rclauncher.cpp:901-911 | a favorite is kept iff its number is non-zero and its name and path are not empty |
| LauncherConfig.MissingNumDropsFavorite | src/rclauncher.cpp:901-911 | a `<favorite>` without `num` is dropped |
| LauncherConfig.RcRule | src/rclauncher.cpp:912-952 | a rule needs its pattern (or extension) and a compiling regex; its argv has a word containing `{}`; killability follows the flag |
| LauncherConfig.DeclaredOuterStates | src/rclauncher.cpp:846-850 | the first three transition declarations fill the slots of `TAG_INIT`, `config` and `graphics` |
| LauncherConfig.DeclaredStates | src/rclauncher.cpp:846-852 | the five transition declarations give the first five slots of the table |
| LauncherConfig.DeclaredGraphicsAttributes | src/rclauncher.cpp:855-856 | the `font` and `color` attribute declarations give the first seven slots |
| LauncherConfig.DeclaredAttributes | src/rclauncher.cpp:855-858 | the four attribute declarations complete the table |
| LauncherConfig.DeclareStates | src/rclauncher.cpp:846-854 | the transition declarations build the first part of the table |
| LauncherConfig.DeclareAttributes | src/rclauncher.cpp:855-858 | the attribute declarations complete the table |
| LauncherConfig.RcParser.constructor | src/rclauncher.cpp:844-859 | the parser starts at the initial state with nothing read |
| LauncherConfig.RcParser.StartElement | src/rclauncher.cpp:861-879 | each start tag pushes the table's next state and appends a favorite or a rule when that state fires |
| LauncherConfig.RcParser.EndElement | util/xml/simplexmlparse.h:142-148 | pops one state |
| LauncherConfig.RcParser.StartState | src/rclauncher.cpp:861-879 | dispatches to the favorite or the pattern reader |
| LauncherConfig.RcParser.ParseFavorite | src/rclauncher.cpp:901-911 | appends the favorite when it is valid |
| LauncherConfig.RcParser.ParsePattern | src/rclauncher.cpp:912-952 | appends the rule `RcRule` reads when it is valid, keeping every rule's argv holding a word that contains `{}` |
| BrowserConfig.RbNext | src/rcbrowser.cpp:765-801 | the state stack's transitions: `rcbrowser`, then `favorites`, `file_assoc`, `graphics`; all else `ST_NONE` |
| BrowserConfig.ChildOfUnknownIsNone | src/rcbrowser.cpp:768-801 | everything under an unknown or leaf state is ignored |
| BrowserConfig.RbStackDepth | src/rcbrowser.cpp:765-806 | on well-nested input the stack depth is 1 + opens − closes |
| BrowserConfig.FavoriteAsWritten | src/rcbrowser.cpp:811-827 | as written a favorite's number is whatever the uninitialised field held when `num` is absent |
| BrowserConfig.MissingNumReadsGarbage | src/rcbrowser.cpp:811-827 | without `num`, the favorite is kept or dropped depending on stack garbage |
| BrowserConfig.FavoriteFromAtts | src/rcbrowser.cpp:811-827 | corrected: kept iff `num` gives a non-zero number and name and path are non-empty |
| BrowserConfig.NumMakesFavoriteDeterminate | src/rcbrowser.cpp:811-827 | with `num` present the favorite as written is the corrected one, whatever the uninitialised value |
| BrowserConfig.RuleFromAtts | src/rcbrowser.cpp:828-884 | a rule needs its `match` or `ext` and a compiling regex, has a word containing `{}`, and is killable iff the flag says so |
| BrowserConfig.RbParser.constructor | src/rcbrowser.cpp:760-763 | the stack starts at `ST_INIT` with nothing read |
| BrowserConfig.RbParser.StartElement | src/rcbrowser.cpp:765-802 | pushes the next state, appending a favorite (as written) or a rule in their sections |
| BrowserConfig.RbParser.EndElement | src/rcbrowser.cpp:803-806 | pops one state |
| BrowserConfig.RbParser.ParseFavorite | src/rcbrowser.cpp:811-827 | appends the favorite as written: without `num` its number is the uninitialised value |
| BrowserConfig.BuildRule | src/rcbrowser.cpp:830-877 | the attribute scan, regex build and argv fix-up compute `RuleFromAtts` |
| BrowserConfig.RbParser.ParsePattern | src/rcbrowser.cpp:828-884 | appends the rule when it is valid |
| BrowserConfig.ScanFavorite | src/rcbrowser.cpp:813-824 | the attribute loop reads the last `num`, `name` and `path`; the number keeps the uninitialised value when `num` is absent |
| BrowserConfig.ScanPattern | src/rcbrowser.cpp:830-841 | the attribute loop reads the last pattern, command and killable flag |

## Left out

- The LIRC client: commands arrive as strings, and the socket is not modelled.
- Drawing with GTK, Cairo and Pango (`OnDrawExpose`, `OnDrawCairo`, `Redraw`) is not modelled. Only the title text and the scrolling of the first visible line are.
- `OnDrawKey` is left out in all three revisions, since keyboard input is a debugging path. In `rclauncher` its Escape-kill branch cannot be reached, because the handler returns early while a child runs.
- Processes are not modelled: `g_spawn_async`, `kill` and the child watch. The spawn outcome is a parameter, and a kill is returned as an `Effect`. `SetupSpawnedEnviron` is not modelled.
- `regcomp`, `regexec`, `wordexp`, `strcoll`, `opendir`, `readdir` and `stat` are parameters. Their own behaviour is not modelled.
- Integer width is not modelled. This covers `int` overflow, the width of `GPid`, and `atoi`'s undefined result on overflow: `Strings.Atoi` is unbounded.
- Floating point is not modelled: font sizes, colours and line heights. `ParseFont`, `ParseColor`, and the font and color states of both parsers are omitted beyond their routing.
- `SimpleXml.Parser.StackState` (util/xml/simplexmlparse.h:71-78) is left out, since no core code calls it.
- `OnLircCommand` of the first revision is left out, since it only prints.
- `mixmlparse.h` (expat glue), the miglib, micairo and miauto helpers, `main`, option parsing and `Help` are not part of this model. Reading the files and delivering expat events is also outside it: the parsers receive the events, and the first revision's loader receives the `<pattern>` elements.
- Entries.SortBy: `std::sort` is not stable, and ties under a collation that ranks distinct names equal may come out in another order. The model sorts by insertion, and for the byte-wise orders `Entries.SortedUnique` shows that the order does not matter.
- SimpleXml.Parser.Valid: the cached top descriptor is a slot index, not a pointer. The source's pointer would dangle after the table grows, and that is not captured.
- Xml.ReplayDepth and BrowserConfig.RbStackDepth assume well-nested events, as expat guarantees for documents it accepts.
- Launcher.MainWnd.TitleLine and Browser.MainWnd.TitleLine state only the case with no current favorite. The favorite case is stated by `Paths.Title`, which both compute.
- The verbose `std::cout` traces are not modelled.
- Listing.Classify: only builds where `_DIRENT_HAVE_D_TYPE` is defined are modelled. Without it every revision asks `stat` about every child (src/rclauncher.cpp:168-176, and the same `#ifdef` in src/rcbrowser.cpp:162 and src/remote_browser.cpp:109), so all three would follow symbolic links.
- Remote.RuleOf, Remote.Loaded, Remote.ReadArgs, Remote.LoadAssocs: an `<arg/>` without a text child is skipped, where the program dereferences a null child (Finding 4). `Remote.LoadAsWritten` models the program, and `Remote.LoadAsWrittenAgrees` shows the two agree whenever the program finishes.

## Findings

| source | as written | input that shows it | evidently intended | confidence | as-written member | corrected member |
|---|---|---|---|---|---|---|
| src/rclauncher.cpp:936-945 (also src/rcbrowser.cpp:868-877, src/remote_browser.cpp:557-563) | the placeholder is appended only when no argument *contains* it, but `Open` substitutes only arguments *equal* to it | a rule with the single argument `--file={}` | the opened file always reaches the argv: append the placeholder unless an argument equals it | not executed | Assoc.PlaceholderInsideWordIsLost | Assoc.FixedRuleAlwaysPassesPath |
| util/xml/simplexmlparse.h:129-135 | the extra-argument loop pushes the attribute once for every declared name it differs from | an element `<font name="normal"/>` whose state declares `name` and `desc`: `name` is reported as an extra argument; with nothing declared, an attribute `x` is never reported | an attribute is an extra argument iff its name is not declared | not executed | SimpleXml.ExtraArgsAsWrittenMisreport | SimpleXml.UndeclaredMembers |
| src/rcbrowser.cpp:813-826 | `f.id` is not initialised when `num` is absent | `<favorite name="M" path="/m"/>` is kept with an arbitrary number or dropped, depending on memory | a favorite without `num` is dropped, as in `rclauncher` | not executed | BrowserConfig.MissingNumReadsGarbage | BrowserConfig.FavoriteFromAtts |
| src/remote_browser.cpp:554 | `FirstChild()` of an empty `<arg/>` is null and is dereferenced | `<pattern match="\.ogg$" command="ogg123"><arg/></pattern>` | an `<arg>` without a text child is skipped, as the following null test intends | not executed | Remote.EmptyArgStopsLoader | Remote.LoadAssocs |
