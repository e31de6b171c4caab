/**
  The path and string logic shared by the browser windows: `ChangePath`'s
  normalisation, the child and parent paths `Select` and `Back` move to, the favorite
  lookups, the title line and the scrolling of the file list.
 */
module Paths {

  import opened Wrappers
  import opened Strings
  import opened Entries

  const Root: String := "/"

  /** A path as `ChangePath` leaves it: non-empty, and no trailing `/` unless it is `/`. */
  predicate IsNormal(p: String)
  {
    |p| >= 1 && (|p| == 1 || p[|p| - 1] != '/')
  }

  /** Drops trailing slashes while more than one character is left. */
  function StripTrailingSlashes(p: String): (r: String)
    ensures IsPrefix(r, p)
    ensures p != [] ==> IsNormal(r)
    ensures forall k :: |r| <= k < |p| ==> p[k] == '/'
    ensures IsNormal(p) ==> r == p
  {
    if |p| > 1 && p[|p| - 1] == '/' then StripTrailingSlashes(p[..|p| - 1]) else p
  }

  /** The directory `ChangePath(path)` moves to: `/` for the empty path, otherwise the
      path without its trailing slashes. */
  function Normalize(path: String): (r: String)
    ensures IsNormal(r)
    ensures path == [] ==> r == Root
    ensures path != [] ==> IsPrefix(r, path) && forall k :: |r| <= k < |path| ==> path[k] == '/'
  {
    if path == [] then Root else StripTrailingSlashes(path)
  }

  /** `ChangePath`'s normalisation loop: `/` for the empty path, then trailing slashes
      dropped while more than one character is left. */
  method NormalizePath(path: String) returns (cwd: String)
    ensures cwd == Normalize(path)
  {
    cwd := path;
    if cwd == [] {
      cwd := Root;
    }
    while |cwd| > 1 && cwd[|cwd| - 1] == '/'
      invariant cwd != [] && StripTrailingSlashes(cwd) == Normalize(path)
      decreases |cwd|
    {
      cwd := cwd[..|cwd| - 1];
    }
  }

  /** Normalising twice changes nothing, and a normal path is its own normal form. */
  lemma NormalizeIdempotent(path: String)
    ensures Normalize(Normalize(path)) == Normalize(path)
    ensures IsNormal(path) <==> Normalize(path) == path
  {
  }

  /** A run of slashes only, of any length, normalises to the root. */
  lemma {:induction false} SlashesNormalizeToRoot(path: String)
    requires path != [] && forall k :: 0 <= k < |path| ==> path[k] == '/'
    ensures Normalize(path) == Root
    decreases |path|
  {
    if |path| > 1 {
      SlashesNormalizeToRoot(path[..|path| - 1]);
    }
  }

  /** The path `Select` passes to `ChangePath` for the entry `name`: the root is
      cleared first so that no double slash appears. */
  function ChildPath(cwd: String, name: String): (r: String)
    ensures |r| > |name| && r[|r| - |name|..] == name && r[|r| - |name| - 1] == '/'
    ensures cwd != Root ==> |r| == |cwd| + 1 + |name| && r[..|cwd|] == cwd
    ensures cwd == Root ==> r == Root + name
  {
    (if cwd == Root then [] else cwd) + "/" + name
  }

  /** The split `Back` makes at the last `/`: the parent it moves to and the leaf whose
      entry it selects afterwards; `None` when there is no slash. */
  function SplitLast(cwd: String): (r: Option<(String, String)>)
    ensures r.None? <==> '/' !in cwd
    ensures r.Some? ==> r.value.0 + "/" + r.value.1 == cwd && '/' !in r.value.1
  {
    match LastIndexOf(cwd, '/')
    case None => None
    case Some(s) =>
      assert cwd == cwd[..s] + "/" + cwd[s + 1..];
      Some((cwd[..s], cwd[s + 1..]))
  }

  /**
    `Back` undoes `Select`: from a normal directory, entering `name` and then splitting
    at the last slash gives back the directory (after normalisation) and `name`.
   */
  lemma BackUndoesSelect(cwd: String, name: String)
    requires IsNormal(cwd)
    requires '/' !in name
    ensures SplitLast(ChildPath(cwd, name)).Some?
    ensures Normalize(SplitLast(ChildPath(cwd, name)).value.0) == cwd
    ensures SplitLast(ChildPath(cwd, name)).value.1 == name
  {
    var prefix := if cwd == Root then [] else cwd;
    var p := ChildPath(cwd, name);
    assert p[|prefix|] == '/';
    var s := LastIndexOf(p, '/');
    assert s.Some? && s.value == |prefix| by {
      forall j | |prefix| < j < |p|
        ensures p[j] != '/'
      {
        assert p[j] == name[j - |prefix| - 1];
      }
    }
    assert p[..|prefix|] == prefix;
    assert p[|prefix| + 1..] == name;
  }

  /** The first revision has no root special case: entering `home` from `/` gives
      `//home`, which `ChangePath` keeps as it is. */
  lemma RootChildKeepsDoubleSlash()
    ensures Normalize("/" + "/" + "home") == "//home"
    ensures Normalize(ChildPath(Root, "home")) == "/home"
  {
  }

  /** A configured favorite: remote-control number, display name, directory. */
  datatype Favorite = Favorite(id: int, name: String, path: String)

  /**
    The favorite `ChangePath` selects for `path`: the first whose path equals
    `path.substr(0, fav.path.size())`, i.e. is a character prefix of `path`; -1 if none.
   */
  function FavoriteByPrefix(favs: seq<Favorite>, path: String): (r: int)
    ensures -1 <= r < |favs|
  {
    if favs == [] then -1
    else if favs[0].path == Substr0(path, |favs[0].path|) then 0
    else
      var r := FavoriteByPrefix(favs[1..], path);
      if r == -1 then -1 else r + 1
  }

  /** `FavoriteByPrefix` is the first favorite whose path is a prefix, -1 iff none is. */
  lemma {:induction false} FavoriteByPrefixFinds(favs: seq<Favorite>, path: String)
    ensures var r := FavoriteByPrefix(favs, path);
      && (r >= 0 ==> IsPrefix(favs[r].path, path))
      && (r >= 0 ==> forall j :: 0 <= j < r ==> !IsPrefix(favs[j].path, path))
      && (r == -1 <==> forall j :: 0 <= j < |favs| ==> !IsPrefix(favs[j].path, path))
  {
    if favs != [] {
      SubstrPrefix(favs[0].path, path);
      if favs[0].path != Substr0(path, |favs[0].path|) {
        FavoriteByPrefixFinds(favs[1..], path);
        assert forall j :: 1 <= j < |favs| ==> favs[j] == favs[1..][j - 1];
      }
    }
  }

  /** `ChangePath`'s favorite loop. */
  method FindFavoriteByPrefix(favs: seq<Favorite>, path: String) returns (idx: int)
    ensures idx == FavoriteByPrefix(favs, path)
  {
    FavoriteByPrefixFinds(favs, path);
    idx := -1;
    for i := 0 to |favs|
      invariant forall j :: 0 <= j < i ==> !IsPrefix(favs[j].path, path)
    {
      SubstrPrefix(favs[i].path, path);
      if favs[i].path == Substr0(path, |favs[i].path|) {
        idx := i;
        break;
      }
    }
  }

  /** The favorite `ChangeFavorite(n)` selects: the first with id `n`. */
  function FavoriteById(favs: seq<Favorite>, n: int): (r: Option<nat>)
    ensures r.Some? ==> r.value < |favs|
  {
    if favs == [] then None
    else if favs[0].id == n then Some(0)
    else
      var r := FavoriteById(favs[1..], n);
      if r.None? then None else Some(r.value + 1)
  }

  /** `FavoriteById` is the first favorite with id `n`, none iff no favorite has it. */
  lemma {:induction false} FavoriteByIdFinds(favs: seq<Favorite>, n: int)
    ensures var r := FavoriteById(favs, n);
      && (r.Some? ==> favs[r.value].id == n)
      && (r.Some? ==> forall j :: 0 <= j < r.value ==> favs[j].id != n)
      && (r.None? <==> forall j :: 0 <= j < |favs| ==> favs[j].id != n)
  {
    if favs != [] && favs[0].id != n {
      FavoriteByIdFinds(favs[1..], n);
      assert forall j :: 1 <= j < |favs| ==> favs[j] == favs[1..][j - 1];
    }
  }

  /** `ChangeFavorite`'s search loop. */
  method FindFavoriteById(favs: seq<Favorite>, n: int) returns (r: Option<nat>)
    ensures r == FavoriteById(favs, n)
  {
    FavoriteByIdFinds(favs, n);
    var i := 0;
    while i < |favs|
      invariant 0 <= i <= |favs|
      invariant forall j :: 0 <= j < i ==> favs[j].id != n
    {
      if favs[i].id == n {
        return Some(i);
      }
      i := i + 1;
    }
    return None;
  }

  /**
    The title line. Inside a favorite it shows the favorite's name and the path below
    it (`/` at the favorite itself); otherwise the whole directory.
   */
  function Title(cwd: String, favs: seq<Favorite>, favIdx: int): (t: String)
    ensures !(0 <= favIdx < |favs|) ==> t == cwd
    ensures 0 <= favIdx < |favs| && |cwd| < |favs[favIdx].path| ==> t == cwd
    ensures 0 <= favIdx < |favs| && IsPrefix(favs[favIdx].path, cwd) ==>
      var fav := favs[favIdx];
      && IsPrefix(fav.name + ": ", t)
      && (cwd == fav.path ==> t == fav.name + ": /")
      && (cwd != fav.path ==> fav.path + t[|fav.name| + 2..] == cwd)
  {
    if 0 <= favIdx < |favs| then
      var fav := favs[favIdx];
      if |cwd| >= |fav.path| then
        var t := fav.name + ": " + cwd[|fav.path|..];
        if |cwd| == |fav.path| then t + "/" else t
      else cwd
    else cwd
  }

  /** The favorite test compares characters, not path components: `/media/music2` is
      inside the favorite `/media/music` and is titled `Music: 2`. */
  lemma PrefixFavoriteCoversSibling()
    ensures var favs := [Favorite(1, "Music", "/media/music")];
      && FavoriteByPrefix(favs, "/media/music2") == 0
      && Title("/media/music2", favs, 0) == "Music: 2"
  {
    var favs := [Favorite(1, "Music", "/media/music")];
    assert IsPrefix(favs[0].path, "/media/music2");
  }

  /** The first line of the window `first` shows `sel` among `n` lines. */
  predicate Shows(first: int, sel: int, n: int)
  {
    first <= sel < first + n
  }

  function Dist(a: int, b: int): nat
  {
    if a <= b then b - a else a - b
  }

  /**
    The viewport adjustment of the draw handler: the first visible line after
    scrolling so that the selection is on screen, moving as little as possible.
   */
  function ScrollToSelection(sel: int, first: int, nLines: int): (f: int)
    ensures nLines >= 1 ==> Shows(f, sel, nLines)
    ensures nLines >= 1 ==> forall g :: Shows(g, sel, nLines) ==> Dist(f, first) <= Dist(g, first)
    ensures Shows(first, sel, nLines) ==> f == first
  {
    var f := if sel < first then sel else first;
    if sel >= f + nLines then sel - nLines + 1 else f
  }

  /** Where the selection can be: on an entry, or at -1 or 0 in an empty listing. */
  predicate SelectionFits(sel: int, size: nat)
  {
    if size > 0 then 0 <= sel < size else -1 <= sel <= 0
  }

  /** The selection clamp shared by every `Move`: past the end goes to the last line,
      below zero to the first (an empty list leaves -1 or 0). */
  function Clamp(v: int, size: nat): (r: int)
    ensures SelectionFits(r, size)
    ensures size > 0 ==> 0 <= r < size
    ensures 0 <= v < size ==> r == v
    ensures size == 0 ==> r == (if v >= 0 then -1 else 0)
  {
    if v >= size then size - 1 else if v < 0 then 0 else v
  }

  /** The index `Back` selects: the first entry named `leaf`, else it stays at 0. */
  function IndexOfName(files: seq<DirEntry>, leaf: String): (r: nat)
    ensures r == 0 || r < |files|
  {
    if files == [] then 0
    else if files[0].name == leaf then 0
    else
      var r := IndexOfName(files[1..], leaf);
      if exists k :: 0 <= k < |files[1..]| && files[1..][k].name == leaf then r + 1 else 0
  }

  /** `IndexOfName` is the first entry named `leaf`, and 0 when no entry has that name. */
  lemma {:induction false} IndexOfNameFinds(files: seq<DirEntry>, leaf: String)
    ensures (exists k :: 0 <= k < |files| && files[k].name == leaf) ==>
      var r := IndexOfName(files, leaf);
      r < |files| && files[r].name == leaf && forall j :: 0 <= j < r ==> files[j].name != leaf
    ensures (forall k :: 0 <= k < |files| ==> files[k].name != leaf) ==> IndexOfName(files, leaf) == 0
  {
    if files != [] && files[0].name != leaf {
      IndexOfNameFinds(files[1..], leaf);
      assert forall j :: 1 <= j < |files| ==> files[j] == files[1..][j - 1];
    }
  }

  /** `Back`'s search for the entry it came from: its first index, 0 when it is absent. */
  method FindName(files: seq<DirEntry>, leaf: String) returns (sel: nat)
    ensures sel == IndexOfName(files, leaf)
  {
    IndexOfNameFinds(files, leaf);
    sel := 0;
    for i := 0 to |files|
      invariant forall j :: 0 <= j < i ==> files[j].name != leaf
    {
      if files[i].name == leaf {
        sel := i;
        break;
      }
    }
  }
}
