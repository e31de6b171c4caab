/**
  The main window of the middle revision (`rcbrowser`). It keeps the same state as the
  latest revision except the number of visible lines, which its draw handler only
  computes locally. It moves one line at a time, spawns even an empty argv, and knows
  no paging or `quit` command.

  As in the latest revision, the rules, favorites, `regexec` and `strcoll` are
  constants of the window, the file system is the `disk` parameter and the outcome of
  the spawn call is the `spawned` parameter.
 */
module Browser {

  import opened Wrappers
  import opened Strings
  import opened Entries
  import opened Assoc
  import opened Listing
  import opened Paths
  import opened Commands

  class MainWnd {
    const assocs: seq<FileAssoc>
    const favorites: seq<Favorite>
    const regexec: Matcher
    const strcoll: (String, String) -> int

    var cwd: String
    var lineSel: int
    var firstLine: int
    var files: seq<DirEntry>
    /** 0 while no child runs. */
    var childPid: int
    var childText: String
    var isKillable: bool
    var favoriteIdx: int

    ghost predicate Valid()
      reads this
    {
      IsNormal(cwd) && SelectionFits(lineSel, |files|) && -1 <= favoriteIdx < |favorites| && childPid >= 0
    }

    /** The listing `list_dir` gives for `path`. */
    function ListingAt(path: String, disk: Disk): seq<DirEntry>
    {
      ListingOf(RcBrowser, path, DirOf(disk, path), Regexes(assocs), regexec, strcoll)
    }

    /** The child process: its pid, its caption and whether `kill` may end it. */
    function Child(): (int, String, bool)
      reads this
    {
      (childPid, childText, isKillable)
    }

    /** The directory shown: path, listing and favorite. */
    function Place(): (String, seq<DirEntry>, int)
      reads this
    {
      (cwd, files, favoriteIdx)
    }

    /** The window shows the fresh listing of `path`, normalised, with the selection on
        its first line. */
    ghost predicate ShowsFresh(path: String, disk: Disk)
      reads this
    {
      cwd == Normalize(path) && files == ListingAt(cwd, disk) && lineSel == 0 && firstLine == 0
    }

    /** What `Back` leaves from the directory `from`: the parent's listing with the entry
        just left selected, or the root when `from` has no slash. */
    ghost predicate BackedFrom(from: String, disk: Disk)
      reads this
    {
      match SplitLast(from)
      case None => ShowsFresh(Root, disk) && favoriteIdx == FavoriteByPrefix(favorites, Root)
      case Some(split) =>
        cwd == Normalize(split.0) && files == ListingAt(cwd, disk) && firstLine == 0
        && lineSel == IndexOfName(files, split.1) && favoriteIdx == FavoriteByPrefix(favorites, split.0)
    }

    /** Opens favorite 1, or the working directory `.` when there is no such favorite. */
    constructor (assocs: seq<FileAssoc>, favorites: seq<Favorite>, regexec: Matcher,
                 strcoll: (String, String) -> int, disk: Disk)
      ensures Valid()
      ensures this.assocs == assocs && this.favorites == favorites
      ensures this.regexec == regexec && this.strcoll == strcoll
      ensures Child() == (0, [], false)
      ensures match FavoriteById(favorites, 1)
        case Some(i) => ShowsFresh(favorites[i].path, disk) && favoriteIdx == i
        case None => ShowsFresh(".", disk) && favoriteIdx == FavoriteByPrefix(favorites, ".")
    {
      this.assocs := assocs;
      this.favorites := favorites;
      this.regexec := regexec;
      this.strcoll := strcoll;
      cwd := Root;
      lineSel, firstLine := 0, 0;
      files := [];
      childPid, childText, isKillable := 0, [], false;
      favoriteIdx := -1;
      new;
      var found := ChangeFavorite(1, disk);
      if !found {
        ChangePath(".", true, disk);
      }
    }

    /** Moves the selection one line down or up, clamped to the listing. */
    method Move(down: bool)
      requires Valid()
      modifies this
      ensures Valid()
      ensures lineSel == Clamp(old(lineSel) + (if down then 1 else -1), |files|)
      ensures Place() == old(Place()) && Child() == old(Child()) && firstLine == old(firstLine)
    {
      if down {
        lineSel := lineSel + 1;
        if lineSel >= |files| {
          lineSel := |files| - 1;
        }
      } else {
        lineSel := lineSel - 1;
        if lineSel < 0 {
          lineSel := 0;
        }
      }
    }

    /** The argument vector `Select` would launch from this state: the one for the
        selected entry when it is a file and `onlyDir` is off, none otherwise. */
    function SelectArgv(onlyDir: bool): (r: Option<seq<String>>)
      reads this
      ensures r.Some? ==> !onlyDir && 0 <= lineSel < |files| && !files[lineSel].isDir
    {
      if onlyDir || !(0 <= lineSel < |files|) || files[lineSel].isDir then None
      else OpenArgv(assocs, regexec, Placeholder, cwd, files[lineSel].name)
    }

    /** What `Select(onlyDir, disk, spawned)` did to this window, given the vector
        `argv` it launched: `..` goes back, a directory is entered, a file is opened
        (recording the child when it was spawned) unless `onlyDir`; nothing happens for
        an out-of-range selection. */
    twostate predicate Selected(onlyDir: bool, disk: Disk, spawned: Option<Pid>, argv: Option<seq<String>>)
      reads this
    {
      if !(0 <= old(lineSel) < |old(files)|) then unchanged(this) && argv.None?
      else
        var e := old(files)[old(lineSel)];
        && (e.isDir && e.name == DotDot ==> BackedFrom(old(cwd), disk) && Child() == old(Child()) && argv.None?)
        && (e.isDir && e.name != DotDot ==>
              var path := ChildPath(old(cwd), e.name);
              ShowsFresh(path, disk) && favoriteIdx == FavoriteByPrefix(favorites, path)
              && Child() == old(Child()) && argv.None?)
        && (!e.isDir && onlyDir ==> unchanged(this) && argv.None?)
        && (!e.isDir && !onlyDir ==>
              && argv == OpenArgv(assocs, regexec, Placeholder, old(cwd), e.name)
              && Place() == old(Place()) && lineSel == old(lineSel) && firstLine == old(firstLine)
              && Child() == if argv.Some? && spawned.Some?
                            then (spawned.value, e.name, assocs[FirstMatch(Regexes(assocs), regexec, e.name).value].isKillable)
                            else old(Child()))
    }

    /** Acts on the selected entry, as `Selected` describes. */
    method Select(onlyDir: bool, disk: Disk, spawned: Option<Pid>) returns (argv: Option<seq<String>>)
      requires Valid()
      modifies this
      ensures Valid()
      ensures argv == old(SelectArgv(onlyDir))
      ensures Selected(onlyDir, disk, spawned, argv)
    {
      argv := None;
      if lineSel < 0 || lineSel >= |files| {
        return;
      }
      var entry := files[lineSel];
      if entry.isDir {
        if entry.name == DotDot {
          Back(disk);
        } else {
          var base := if cwd == Root then [] else cwd;
          ChangePath(base + "/" + entry.name, true, disk);
        }
      } else if !onlyDir {
        argv := Open(entry.name, spawned);
      }
    }

    /** Goes to the parent directory and selects the entry just left. */
    method Back(disk: Disk)
      requires Valid()
      modifies this
      ensures Valid()
      ensures BackedFrom(old(cwd), disk)
      ensures Child() == old(Child())
    {
      var slash := LastIndexOf(cwd, '/');
      var target := Root;
      var leaf: Option<String> := None;
      if slash.Some? {
        target, leaf := cwd[..slash.value], Some(cwd[slash.value + 1..]);
      }
      assert leaf.None? ==> SplitLast(cwd).None?;
      assert leaf.Some? ==> SplitLast(cwd) == Some((target, leaf.value));
      ChangePath(target, true, disk);
      if leaf.Some? {
        lineSel := FindName(files, leaf.value);
      }
    }

    /** Shows `path`, normalised; with `findFav` also re-selects the favorite whose path
        is a prefix of `path` as given. */
    method ChangePath(path: String, findFav: bool, disk: Disk)
      requires Valid()
      modifies this
      ensures Valid()
      ensures ShowsFresh(path, disk)
      ensures favoriteIdx == if findFav then FavoriteByPrefix(favorites, path) else old(favoriteIdx)
      ensures Child() == old(Child())
    {
      var dir := NormalizePath(path);
      var listing := ListDir(RcBrowser, dir, disk, Regexes(assocs), regexec, strcoll);
      var fav := favoriteIdx;
      if findFav {
        fav := FindFavoriteByPrefix(favorites, path);
      }
      assert IsNormal(dir) && SelectionFits(0, |listing|) && -1 <= fav < |favorites|;
      cwd, files, favoriteIdx := dir, listing, fav;
      lineSel, firstLine := 0, 0;
    }

    /** Goes to the first favorite with id `n`; without one, reports false and changes
        nothing. */
    method ChangeFavorite(n: int, disk: Disk) returns (found: bool)
      requires Valid()
      modifies this
      ensures Valid()
      ensures found <==> FavoriteById(favorites, n).Some?
      ensures !found ==> unchanged(this)
      ensures found ==> var i := FavoriteById(favorites, n).value;
        favoriteIdx == i && ShowsFresh(favorites[i].path, disk) && Child() == old(Child())
    {
      var i := FindFavoriteById(favorites, n);
      if i.None? {
        return false;
      }
      favoriteIdx := i.value;
      ChangePath(favorites[i.value].path, false, disk);
      return true;
    }

    /** Opens the file `name` of the current directory with its first matching rule,
        whatever its argument count; only a successful spawn records the child. */
    method Open(name: String, spawned: Option<Pid>) returns (argv: Option<seq<String>>)
      requires Valid()
      modifies this
      ensures Valid()
      ensures argv == OpenArgv(assocs, regexec, Placeholder, cwd, name)
      ensures Place() == old(Place()) && lineSel == old(lineSel) && firstLine == old(firstLine)
      ensures argv.Some? && spawned.Some? ==>
        Child() == (spawned.value, name, assocs[FirstMatch(Regexes(assocs), regexec, name).value].isKillable)
      ensures !(argv.Some? && spawned.Some?) ==> Child() == old(Child())
    {
      var fullPath := cwd + "/" + name;
      var m := Match(Regexes(assocs), regexec, name);
      if m.None? {
        return None;
      }
      var assoc := assocs[m.value];
      var args := BuildArgv(assoc.args, Placeholder, fullPath);
      argv := Some(args);
      if spawned.Some? {
        childPid := spawned.value;
        childText := name;
        isKillable := assoc.isKillable;
      }
    }

    /** The child watch: forgets the child when the process that ended is it. */
    method OnChildWatch(pid: Pid)
      requires Valid()
      modifies this
      ensures Valid()
      ensures Child() == if old(childPid) == pid then (0, [], old(isKillable)) else old(Child())
      ensures Place() == old(Place()) && lineSel == old(lineSel) && firstLine == old(firstLine)
    {
      if childPid == pid {
        childPid := 0;
        childText := [];
      }
    }

    /** The draw handler's viewport step, for the `lines` that fit: scrolls so the
        selection is visible. */
    method AdjustViewport(lines: int)
      requires Valid()
      modifies this
      ensures Valid()
      ensures firstLine == ScrollToSelection(lineSel, old(firstLine), lines)
      ensures Place() == old(Place()) && Child() == old(Child()) && lineSel == old(lineSel)
    {
      if lineSel < firstLine {
        firstLine := lineSel;
      }
      if lineSel >= firstLine + lines {
        firstLine := lineSel - lines + 1;
      }
    }

    /** The title line of the window. */
    function TitleLine(): (t: String)
      reads this
      ensures !(0 <= favoriteIdx < |favorites|) ==> t == cwd
    {
      Title(cwd, favorites, favoriteIdx)
    }

    /**
      What a command word did when no child was running: `up`/`down` move one line,
      `ok` and `right` select (`right` never opens a file, `ok` spawns the vector
      `Select` launched), `left` goes back, `fav N` changes favorite; anything else is
      ignored (the browser has no paging and no quit).
     */
    twostate predicate Dispatched(command: Command, disk: Disk, spawned: Option<Pid>, effect: Effect)
      reads this
    {
      && !effect.Terminate? && effect != Quit
      && (effect.Spawn? ==> command == Ok)
      && (command in {Up, Down} ==>
            lineSel == Clamp(old(lineSel) + Step(command, 1), |files|)
            && firstLine == old(firstLine)
            && Place() == old(Place()) && Child() == old(Child()) && effect == NoEffect)
      && (command == Ok ==>
            Selected(false, disk, spawned, old(SelectArgv(false)))
            && effect == match old(SelectArgv(false)) case Some(argv) => Spawn(argv) case None => NoEffect)
      && (command == Right ==> Selected(true, disk, spawned, None) && effect == NoEffect)
      && (command == Left ==> BackedFrom(old(cwd), disk) && Child() == old(Child()) && effect == NoEffect)
      && (command.Fav? ==>
            effect == NoEffect
            && match FavoriteById(favorites, command.n)
               case None => unchanged(this)
               case Some(i) => favoriteIdx == i && ShowsFresh(favorites[i].path, disk) && Child() == old(Child()))
      && (command == Unknown ==> unchanged(this))
    }

    /**
      A remote-control command. While a child runs only `kill` does anything, and only
      for a killable child; otherwise the command word acts as `Dispatched` describes.
     */
    method OnLircCommand(cmd: String, disk: Disk, spawned: Option<Pid>) returns (effect: Effect)
      requires Valid()
      modifies this
      ensures Valid()
      ensures old(childPid) != 0 ==> unchanged(this)
      ensures old(childPid) != 0 ==>
        effect == if old(isKillable) && cmd == "kill" then Terminate(old(childPid)) else NoEffect
      ensures old(childPid) == 0 ==> Dispatched(BrowserCommand(cmd), disk, spawned, effect)
    {
      effect := NoEffect;
      if childPid != 0 {
        if isKillable && cmd == "kill" {
          effect := Terminate(childPid);
        }
        return;
      }
      effect := Dispatch(BrowserCommand(cmd), disk, spawned);
    }

    /** Carries out a command word while no child runs. */
    method Dispatch(command: Command, disk: Disk, spawned: Option<Pid>) returns (effect: Effect)
      requires Valid()
      modifies this
      ensures Valid()
      ensures Dispatched(command, disk, spawned, effect)
    {
      effect := NoEffect;
      match command
      case Up => Move(false);
      case Down => Move(true);
      case Ok =>
        var argv := Select(false, disk, spawned);
        if argv.Some? {
          effect := Spawn(argv.value);
        }
      case Right =>
        var argv := Select(true, disk, spawned);
      case Left => Back(disk);
      case Fav(n) =>
        var found := ChangeFavorite(n, disk);
      case _ =>
    }
  }
}
