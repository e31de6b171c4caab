/**
  What a remote-control command or a child process does to the world outside the
  window, and the `fav N` command of the later revisions.
 */
module Commands {

  import opened Wrappers
  import opened Strings

  /** A process id the spawn call returned; 0 means "no child" in the windows. */
  type Pid = x: int | x > 0 witness 1

  /** The outside effect of a command: nothing, `kill(pid, SIGTERM)`, a spawn attempt
      with this argv, or leaving the main loop. */
  datatype Effect = NoEffect | Terminate(pid: Pid) | Spawn(argv: seq<String>) | Quit

  /** `strlen(cmd) > 4 && memcmp(cmd, "fav ", 4) == 0`, then `atoi(cmd + 4)`. */
  function FavNumber(cmd: String): (r: Option<int>)
    ensures r.Some? <==> |cmd| > 4 && IsPrefix("fav ", cmd)
    ensures r.Some? ==> r.value == Atoi(cmd[4..])
  {
    if |cmd| > 4 && cmd[..4] == "fav " then Some(Atoi(cmd[4..])) else None
  }

  /** `fav 3` selects favorite 3; `fav ` alone is not a favorite command. */
  lemma FavCommandExamples()
    ensures FavNumber("fav 3") == Some(Atoi("3"))
    ensures FavNumber("fav ") == None
    ensures FavNumber("favorite") == None
  {
    assert "fav 3"[..4] == "fav ";
    assert "fav 3"[4..] == "3";
    assert "favorite"[3] != "fav "[3];
  }

  /** A remote-control command as the windows' dispatch chains recognise it. */
  datatype Command = Up | Down | PageUp | PageDown | Ok | Right | Left | Fav(n: int) | QuitLoop | Unknown

  /** How far a movement command moves the selection, given the lines that fit. */
  function Step(c: Command, nLines: int): int
  {
    match c
    case Up => -1
    case Down => 1
    case PageUp => -nLines
    case PageDown => nLines
    case _ => 0
  }

  /** A command that does not start with `f` is no favorite command. */
  lemma NotFavUnlessF(w: String)
    requires w != [] && w[0] != 'f'
    ensures FavNumber(w).None?
  {
    if |w| > 4 {
      assert w[..4][0] == w[0];
    }
  }

  /** No command word of either chain reads as `fav N`. */
  lemma WordsAreNotFav()
    ensures forall w :: w in ["up", "down", "pageup", "pagedown", "ok", "right", "left", "quit"] ==> FavNumber(w).None?
  {
    NotFavUnlessF("pageup");
    NotFavUnlessF("pagedown");
    NotFavUnlessF("right");
  }

  /** The dispatch chain of the latest revision, tried in this order. */
  function LauncherCommand(cmd: String): (c: Command)
    ensures c.Fav? <==> FavNumber(cmd).Some?
    ensures c.Fav? ==> c.n == Atoi(cmd[4..])
    ensures c == Unknown <==>
      cmd !in ["up", "down", "pageup", "pagedown", "ok", "right", "left", "quit"] && FavNumber(cmd).None?
  {
    WordsAreNotFav();
    if cmd == "up" then Up
    else if cmd == "down" then Down
    else if cmd == "pageup" then PageUp
    else if cmd == "pagedown" then PageDown
    else if cmd == "ok" then Ok
    else if cmd == "right" then Right
    else if cmd == "left" then Left
    else if FavNumber(cmd).Some? then Fav(FavNumber(cmd).value)
    else if cmd == "quit" then QuitLoop
    else Unknown
  }

  /** The dispatch chain of the middle revision: no paging and no `quit`. */
  function BrowserCommand(cmd: String): (c: Command)
    ensures c !in {PageUp, PageDown, QuitLoop}
    ensures c.Fav? <==> FavNumber(cmd).Some?
    ensures c.Fav? ==> c.n == Atoi(cmd[4..])
    ensures c == Unknown <==> cmd !in ["up", "down", "ok", "right", "left"] && FavNumber(cmd).None?
  {
    WordsAreNotFav();
    if cmd == "up" then Up
    else if cmd == "down" then Down
    else if cmd == "ok" then Ok
    else if cmd == "right" then Right
    else if cmd == "left" then Left
    else if FavNumber(cmd).Some? then Fav(FavNumber(cmd).value)
    else Unknown
  }

  /** Both revisions read the commands they share alike. */
  lemma SharedCommandsAgree(cmd: String)
    requires BrowserCommand(cmd) != Unknown
    ensures LauncherCommand(cmd) == BrowserCommand(cmd)
  {
  }
}
