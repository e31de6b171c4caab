/**
  `list_dir` in its three revisions: the entries a directory shows, built from what
  `readdir` returns (given as a sequence of raw children), classified by `d_type` or
  by `stat`, filtered, and sorted with the revision's `operator<`.
 */
module Listing {

  import opened Wrappers
  import opened Strings
  import opened Entries
  import opened Assoc

  /** The `d_type` values the source distinguishes. */
  datatype DType = DtUnknown | DtLnk | DtDir | DtReg | DtOther

  /** `st_mode` as the source reads it: `S_ISDIR`, `S_ISREG`, anything else. */
  datatype Mode = ModeDir | ModeReg | ModeOther

  /** One `readdir` result: its name, its `d_type`, and what `stat` on
      `path + "/" + name` would report (`None` when `stat` fails). */
  datatype RawChild = RawChild(name: String, dtype: DType, stat: Option<Mode>)

  datatype Kind = KindOther | KindDir | KindFile

  /** The directories `opendir` can open, with what `readdir` and `stat` report for
      their children. */
  type Disk = map<String, seq<RawChild>>

  function DirOf(disk: Disk, path: String): Option<seq<RawChild>>
  {
    if path in disk then Some(disk[path]) else None
  }

  /** The revision of the browser: `remote_browser.cpp`, `rcbrowser.cpp`, `rclauncher.cpp`. */
  datatype Revision = RemoteBrowser | RcBrowser | RcLauncher

  function OrderOf(rev: Revision, strcoll: (String, String) -> int): (o: Order)
    ensures rev == RemoteBrowser <==> o.ByteOrder?
    ensures rev == RcLauncher <==> o.CollateParentFirst?
  {
    match rev
    case RemoteBrowser => ByteOrder
    case RcBrowser => ByteOrderParentFirst
    case RcLauncher => CollateParentFirst(strcoll)
  }

  function KindOfMode(m: Option<Mode>): Kind
  {
    match m
    case Some(ModeDir) => KindDir
    case Some(ModeReg) => KindFile
    case _ => KindOther
  }

  function KindOfDType(t: DType): Kind
  {
    match t
    case DtDir => KindDir
    case DtReg => KindFile
    case _ => KindOther
  }

  /**
    The type a child is listed as. `d_type` decides unless it is unknown; the launcher
    also asks `stat` for a symbolic link, so a link to a directory or file is followed.
   */
  function Classify(rev: Revision, c: RawChild): (k: Kind)
    ensures c.dtype == DtUnknown ==> k == KindOfMode(c.stat)
    ensures c.dtype == DtLnk ==> k == (if rev == RcLauncher then KindOfMode(c.stat) else KindOther)
    ensures c.dtype !in {DtUnknown, DtLnk} ==> k == KindOfDType(c.dtype)
  {
    if c.dtype == DtUnknown || (rev == RcLauncher && c.dtype == DtLnk) then KindOfMode(c.stat)
    else KindOfDType(c.dtype)
  }

  /** A symbolic link to a directory is shown by the launcher and hidden by the earlier
      revisions. */
  lemma LinkedDirectoryOnlyInLauncher(name: String)
    ensures Classify(RcLauncher, RawChild(name, DtLnk, Some(ModeDir))) == KindDir
    ensures Classify(RcBrowser, RawChild(name, DtLnk, Some(ModeDir))) == KindOther
    ensures Classify(RemoteBrowser, RawChild(name, DtLnk, Some(ModeDir))) == KindOther
  {
  }

  /**
    The entry one child contributes, if any. Every revision drops empty names; the first
    drops every name starting with a dot, the later ones drop `.` and `..`, hidden
    directories, and regular files no association matches.
   */
  function Keep(rev: Revision, c: RawChild, patterns: seq<String>, regexec: Matcher): (r: Option<DirEntry>)
    ensures r.Some? ==> r.value.name == c.name && c.name != [] && c.name != "." && c.name != DotDot
    ensures r.Some? ==> r.value.isDir == (Classify(rev, c) == KindDir)
    ensures r.Some? ==> Classify(rev, c) != KindOther
    ensures r.Some? && r.value.isDir ==> c.name[0] != '.'
    ensures r.Some? && rev == RemoteBrowser ==> c.name[0] != '.'
    ensures r.Some? && !r.value.isDir && rev != RemoteBrowser ==> FirstMatch(patterns, regexec, c.name).Some?
    ensures c.name != [] && c.name[0] != '.' && Classify(rev, c) == KindDir ==> r == Some(DirEntry(c.name, true))
    ensures c.name != [] && c.name != "." && c.name != DotDot && Classify(rev, c) == KindFile
            && (rev == RemoteBrowser ==> c.name[0] != '.')
            && (rev != RemoteBrowser ==> FirstMatch(patterns, regexec, c.name).Some?)
            ==> r == Some(DirEntry(c.name, false))
  {
    var name := c.name;
    var k := Classify(rev, c);
    if name == [] then None
    else if rev == RemoteBrowser then
      if name[0] == '.' then None
      else if k == KindDir then Some(DirEntry(name, true))
      else if k == KindFile then Some(DirEntry(name, false))
      else None
    else if name == "." || name == DotDot then None
    else if k == KindDir then
      if name[0] == '.' then None else Some(DirEntry(name, true))
    else if k == KindFile then
      if FirstMatch(patterns, regexec, name).Some? then Some(DirEntry(name, false)) else None
    else None
  }

  /** The entries the children contribute, in `readdir` order. */
  function Collect(rev: Revision, cs: seq<RawChild>, patterns: seq<String>, regexec: Matcher): (r: seq<DirEntry>)
    ensures |r| <= |cs|
  {
    if cs == [] then []
    else
      var last := Keep(rev, cs[|cs| - 1], patterns, regexec);
      Collect(rev, cs[..|cs| - 1], patterns, regexec) + (if last.Some? then [last.value] else [])
  }

  /** One more child read appends its contribution, if any. */
  lemma CollectSnoc(rev: Revision, cs: seq<RawChild>, i: nat, patterns: seq<String>, regexec: Matcher)
    requires i < |cs|
    ensures var k := Keep(rev, cs[i], patterns, regexec);
      Collect(rev, cs[..i + 1], patterns, regexec)
      == Collect(rev, cs[..i], patterns, regexec) + (if k.Some? then [k.value] else [])
  {
    assert cs[..i + 1][..i] == cs[..i];
  }

  /** An entry is collected exactly when some child contributes it. */
  lemma {:induction false} CollectMembers(rev: Revision, cs: seq<RawChild>, patterns: seq<String>, regexec: Matcher, e: DirEntry)
    ensures e in Collect(rev, cs, patterns, regexec)
            <==> exists i :: 0 <= i < |cs| && Keep(rev, cs[i], patterns, regexec) == Some(e)
    decreases |cs|
  {
    if cs != [] {
      var init := cs[..|cs| - 1];
      CollectMembers(rev, init, patterns, regexec, e);
      if e in Collect(rev, init, patterns, regexec) {
        var i :| 0 <= i < |init| && Keep(rev, init[i], patterns, regexec) == Some(e);
        assert cs[i] == init[i];
      }
      if exists i :: 0 <= i < |cs| && Keep(rev, cs[i], patterns, regexec) == Some(e) {
        var i :| 0 <= i < |cs| && Keep(rev, cs[i], patterns, regexec) == Some(e);
        if i < |cs| - 1 {
          assert init[i] == cs[i];
        }
      }
    }
  }

  /** What `list_dir` starts from: the parent entry, except at the root. */
  function Base(path: String): (r: seq<DirEntry>)
    ensures ParentEntry in r <==> path != "/"
  {
    if path != "/" then [ParentEntry] else []
  }

  /**
    The listing of `path`: when `opendir` fails (`dir` is `None`) just the parent entry,
    unsorted; otherwise the parent entry and the collected children, sorted.
   */
  function ListingOf(rev: Revision, path: String, dir: Option<seq<RawChild>>, patterns: seq<String>,
                     regexec: Matcher, strcoll: (String, String) -> int): (r: seq<DirEntry>)
    ensures dir.None? ==> r == Base(path)
    ensures dir.Some? ==> multiset(r) == multiset(Base(path) + Collect(rev, dir.value, patterns, regexec))
  {
    if dir.None? then Base(path)
    else SortBy(OrderOf(rev, strcoll), Base(path) + Collect(rev, dir.value, patterns, regexec))
  }

  /** The body of the `readdir` loop for one child: classify it, then filter it. */
  method ReadChild(rev: Revision, c: RawChild, patterns: seq<String>, regexec: Matcher) returns (r: Option<DirEntry>)
    ensures r == Keep(rev, c, patterns, regexec)
  {
    var kind := Classify(rev, c);
    var name := c.name;
    r := None;
    if name == [] {
    } else if rev == RemoteBrowser {
      if name[0] != '.' {
        if kind == KindDir {
          r := Some(DirEntry(name, true));
        } else if kind == KindFile {
          r := Some(DirEntry(name, false));
        }
      }
    } else if name != "." && name != DotDot {
      if kind == KindDir {
        if name[0] != '.' {
          r := Some(DirEntry(name, true));
        }
      } else if kind == KindFile {
        var m := Match(patterns, regexec, name);
        if m.Some? {
          r := Some(DirEntry(name, false));
        }
      }
    }
  }

  /** The `readdir` loop of `list_dir`: the kept children, in directory order. */
  method CollectChildren(rev: Revision, children: seq<RawChild>, patterns: seq<String>, regexec: Matcher)
    returns (kept: seq<DirEntry>)
    ensures kept == Collect(rev, children, patterns, regexec)
  {
    kept := [];
    var i := 0;
    while i < |children|
      invariant 0 <= i <= |children|
      invariant kept == Collect(rev, children[..i], patterns, regexec)
    {
      var e := ReadChild(rev, children[i], patterns, regexec);
      CollectSnoc(rev, children, i, patterns, regexec);
      if e.Some? {
        kept := kept + [e.value];
      }
      i := i + 1;
    }
    assert children[..i] == children;
  }

  /**
    `list_dir`: reads the children one by one (the `readdir` loop), then sorts.
    `disk` maps the directories `opendir` can open to their children.
   */
  method ListDir(rev: Revision, path: String, disk: Disk, patterns: seq<String>,
                 regexec: Matcher, strcoll: (String, String) -> int) returns (files: seq<DirEntry>)
    ensures files == ListingOf(rev, path, DirOf(disk, path), patterns, regexec, strcoll)
  {
    files := [];
    if path != "/" {
      files := files + [ParentEntry];
    }
    if path !in disk {
      assert DirOf(disk, path) == None;
      return;
    }
    var children := disk[path];
    assert DirOf(disk, path) == Some(children);
    var kept := CollectChildren(rev, children, patterns, regexec);
    files := files + kept;
    files := SortBy(OrderOf(rev, strcoll), files);
  }

  /** What a listing holds: the parent entry away from the root, and what the children
      contribute when the directory could be opened; nothing else. */
  lemma ListingMembers(rev: Revision, path: String, dir: Option<seq<RawChild>>, patterns: seq<String>,
                       regexec: Matcher, strcoll: (String, String) -> int, e: DirEntry)
    ensures e in ListingOf(rev, path, dir, patterns, regexec, strcoll)
            <==> (e == ParentEntry && path != "/")
                 || (dir.Some? && exists i :: 0 <= i < |dir.value| && Keep(rev, dir.value[i], patterns, regexec) == Some(e))
  {
    var r := ListingOf(rev, path, dir, patterns, regexec, strcoll);
    if dir.Some? {
      var s := Base(path) + Collect(rev, dir.value, patterns, regexec);
      assert e in r <==> e in multiset(s);
      CollectMembers(rev, dir.value, patterns, regexec, e);
    }
  }

  /** `..` is listed exactly when the path is not the root, never more than once, and
      no child can add a second one. */
  lemma ParentListedIffNotRoot(rev: Revision, path: String, dir: Option<seq<RawChild>>, patterns: seq<String>,
                               regexec: Matcher, strcoll: (String, String) -> int)
    ensures ParentEntry in ListingOf(rev, path, dir, patterns, regexec, strcoll) <==> path != "/"
    ensures forall e :: e in ListingOf(rev, path, dir, patterns, regexec, strcoll) && e.name == DotDot ==> e == ParentEntry
  {
    var r := ListingOf(rev, path, dir, patterns, regexec, strcoll);
    ListingMembers(rev, path, dir, patterns, regexec, strcoll, ParentEntry);
    forall e | e in r && e.name == DotDot
      ensures e == ParentEntry
    {
      ListingMembers(rev, path, dir, patterns, regexec, strcoll, e);
    }
  }

  /** No revision lists `.`, an empty name, or a directory whose name starts with a dot;
      the first revision lists no dot-name at all apart from `..`. */
  lemma NoHiddenEntries(rev: Revision, path: String, dir: Option<seq<RawChild>>, patterns: seq<String>,
                        regexec: Matcher, strcoll: (String, String) -> int, e: DirEntry)
    requires e in ListingOf(rev, path, dir, patterns, regexec, strcoll)
    ensures e.name != [] && e.name != "."
    ensures e.isDir && e != ParentEntry ==> e.name[0] != '.'
    ensures rev == RemoteBrowser && e != ParentEntry ==> e.name[0] != '.'
  {
    ListingMembers(rev, path, dir, patterns, regexec, strcoll, e);
  }

  /** In the later revisions a file is listed only when some association matches it, and
      every regular file an association matches is listed. */
  lemma FilesListedIffMatched(rev: Revision, path: String, children: seq<RawChild>, patterns: seq<String>,
                              regexec: Matcher, strcoll: (String, String) -> int, name: String)
    requires rev != RemoteBrowser
    ensures DirEntry(name, false) in ListingOf(rev, path, Some(children), patterns, regexec, strcoll)
            <==> name != [] && name != "." && name != DotDot && FirstMatch(patterns, regexec, name).Some?
                 && exists i :: 0 <= i < |children| && children[i].name == name && Classify(rev, children[i]) == KindFile
  {
    var e := DirEntry(name, false);
    ListingMembers(rev, path, Some(children), patterns, regexec, strcoll, e);
    if exists i :: 0 <= i < |children| && children[i].name == name && Classify(rev, children[i]) == KindFile {
      var i :| 0 <= i < |children| && children[i].name == name && Classify(rev, children[i]) == KindFile;
      if name != [] && name != "." && name != DotDot && FirstMatch(patterns, regexec, name).Some? {
        assert Keep(rev, children[i], patterns, regexec) == Some(e);
      }
    }
  }

  /** A listing read from an open directory is sorted by the revision's order: directories
      first and, in the later revisions, `..` at the top. */
  lemma ListingSorted(rev: Revision, path: String, children: seq<RawChild>, patterns: seq<String>,
                      regexec: Matcher, strcoll: (String, String) -> int)
    requires ValidOrder(OrderOf(rev, strcoll))
    ensures var r := ListingOf(rev, path, Some(children), patterns, regexec, strcoll);
      && Sorted(OrderOf(rev, strcoll), r)
      && (forall i, j :: 0 <= i < j < |r| && r[j].isDir ==> r[i].isDir)
      && (rev != RemoteBrowser && path != "/" ==> r[0] == ParentEntry)
  {
    var o := OrderOf(rev, strcoll);
    var r := ListingOf(rev, path, Some(children), patterns, regexec, strcoll);
    SortBySorted(o, Base(path) + Collect(rev, children, patterns, regexec));
    forall i, j | 0 <= i < j < |r| && r[j].isDir
      ensures r[i].isDir
    {
      SortedDirsFirst(o, r, i, j);
    }
    if rev != RemoteBrowser && path != "/" {
      ParentListedIffNotRoot(rev, path, Some(children), patterns, regexec, strcoll);
      SortedParentFirst(o, r);
    }
  }

  /** The byte order sorts a directory `-a` above `..`. */
  lemma ByteOrderSortsDashFirst()
    ensures SortBy(ByteOrder, [ParentEntry, DirEntry("-a", true)]) == [DirEntry("-a", true), ParentEntry]
  {
    var a := DirEntry("-a", true);
    assert [ParentEntry, a][1..] == [a];
    ByteOrderCanPutDirBeforeParent();
    assert SortBy(ByteOrder, [a]) == [a];
    assert Insert(ByteOrder, ParentEntry, [a]) == [a, ParentEntry];
  }

  /** In the first revision a directory named `-a` is listed above `..`. */
  lemma RemoteParentNotFirst(path: String, patterns: seq<String>, regexec: Matcher, strcoll: (String, String) -> int)
    requires path != "/"
    ensures ListingOf(RemoteBrowser, path, Some([RawChild("-a", DtDir, None)]), patterns, regexec, strcoll)
            == [DirEntry("-a", true), ParentEntry]
  {
    var a := DirEntry("-a", true);
    var c := RawChild("-a", DtDir, None);
    assert Keep(RemoteBrowser, c, patterns, regexec) == Some(a);
    CollectSnoc(RemoteBrowser, [c], 0, patterns, regexec);
    assert [c][..1] == [c];
    assert Base(path) + Collect(RemoteBrowser, [c], patterns, regexec) == [ParentEntry, a];
    ByteOrderSortsDashFirst();
  }
}
