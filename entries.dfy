/**
  Directory entries and the three revisions of `DirEntry::operator<`, together with the
  sort that `list_dir` applies to them (`std::sort`). A sort by a strict weak order
  yields a permutation in which no element is smaller than an element before it; the
  model's sort is an insertion sort with exactly those two properties proved.
 */
module Entries {

  import opened Strings

  datatype DirEntry = DirEntry(name: String, isDir: bool)

  const DotDot: String := ".."

  /** The synthetic parent-directory entry that `list_dir` adds. */
  const ParentEntry: DirEntry := DirEntry(DotDot, true)

  /**
    `std::string::operator<`: lexicographic comparison of the bytes, a proper prefix
    ordering first. Characters stand for bytes and compare by their code.
   */
  predicate LexLess(a: String, b: String): (r: bool)
    ensures r ==> a != b
    ensures |a| < |b| && a == b[..|a|] ==> r
    ensures |b| <= |a| && b == a[..|b|] ==> !r
  {
    if a == [] then b != []
    else if b == [] then false
    else if a[0] != b[0] then a[0] < b[0]
    else LexLess(a[1..], b[1..])
  }

  lemma {:induction false} LexIrreflexive(a: String)
    ensures !LexLess(a, a)
  {
    if a != [] {
      LexIrreflexive(a[1..]);
    }
  }

  lemma {:induction false} LexTransitive(a: String, b: String, c: String)
    requires LexLess(a, b) && LexLess(b, c)
    ensures LexLess(a, c)
  {
    if a != [] && b != [] && c != [] && a[0] == b[0] && b[0] == c[0] {
      LexTransitive(a[1..], b[1..], c[1..]);
    }
  }

  lemma {:induction false} LexTotal(a: String, b: String)
    ensures a == b || LexLess(a, b) || LexLess(b, a)
  {
    if a != [] && b != [] && a[0] == b[0] {
      LexTotal(a[1..], b[1..]);
      if a[1..] == b[1..] {
        assert a == [a[0]] + a[1..] && b == [b[0]] + b[1..];
      }
    }
  }

  /** Byte-wise `<` is a strict total order on strings. */
  lemma LexStrictTotalOrder()
    ensures forall a :: !LexLess(a, a)
    ensures forall a, b, c :: LexLess(a, b) && LexLess(b, c) ==> LexLess(a, c)
    ensures forall a, b :: a == b || LexLess(a, b) || LexLess(b, a)
  {
    forall a {
      LexIrreflexive(a);
    }
    forall a, b, c | LexLess(a, b) && LexLess(b, c) {
      LexTransitive(a, b, c);
    }
    forall a, b {
      LexTotal(a, b);
    }
  }

  /**
    The three revisions of `DirEntry::operator<`. All put directories before files.
    `ByteOrder` then compares names byte-wise; `ByteOrderParentFirst` first puts `..`
    before every other name; `CollateParentFirst` does the same and then compares names
    with the locale's `strcoll`, which is given here as a function whose sign is read.
   */
  datatype Order =
    | ByteOrder
    | ByteOrderParentFirst
    | CollateParentFirst(strcoll: (String, String) -> int)

  predicate Less(o: Order, a: DirEntry, b: DirEntry): (r: bool)
    ensures a.isDir && !b.isDir ==> r
    ensures !a.isDir && b.isDir ==> !r
    ensures !o.ByteOrder? && a.isDir && b.isDir && a.name == DotDot && b.name != DotDot ==> r
    ensures !o.ByteOrder? && a.isDir && b.isDir && a.name != DotDot && b.name == DotDot ==> !r
  {
    if a.isDir && !b.isDir then true
    else if !a.isDir && b.isDir then false
    else if o.ByteOrder? then LexLess(a.name, b.name)
    else if a.name == DotDot && b.name != DotDot then true
    else if a.name != DotDot && b.name == DotDot then false
    else if o.ByteOrderParentFirst? then LexLess(a.name, b.name)
    else o.strcoll(a.name, b.name) < 0
  }

  /** What `std::sort` needs of `strcoll`: "collates before" is a strict weak order. */
  ghost predicate CollationIsWeakOrder(strcoll: (String, String) -> int)
  {
    && (forall a :: !(strcoll(a, a) < 0))
    && (forall a, b, c :: strcoll(a, b) < 0 && strcoll(b, c) < 0 ==> strcoll(a, c) < 0)
    && (forall a, b, c :: !(strcoll(a, b) < 0) && !(strcoll(b, c) < 0) ==> !(strcoll(a, c) < 0))
  }

  ghost predicate ValidOrder(o: Order)
  {
    o.CollateParentFirst? ==> CollationIsWeakOrder(o.strcoll)
  }

  /** Irreflexive, transitive, and "not less" is transitive: a strict weak order. */
  ghost predicate StrictWeakOrder(o: Order)
  {
    && (forall a :: !Less(o, a, a))
    && (forall a, b, c :: Less(o, a, b) && Less(o, b, c) ==> Less(o, a, c))
    && (forall a, b, c :: !Less(o, a, b) && !Less(o, b, c) ==> !Less(o, a, c))
  }

  /** Every revision of `operator<` is a strict weak order, as `std::sort` requires. */
  lemma LessIsStrictWeakOrder(o: Order)
    requires ValidOrder(o)
    ensures StrictWeakOrder(o)
  {
    LexStrictTotalOrder();
    forall a, b, c | !Less(o, a, b) && !Less(o, b, c)
      ensures !Less(o, a, c)
    {
      NotLessTransitive(o, a, b, c);
    }
  }

  lemma NotLessTransitive(o: Order, a: DirEntry, b: DirEntry, c: DirEntry)
    requires ValidOrder(o)
    requires !Less(o, a, b) && !Less(o, b, c)
    ensures !Less(o, a, c)
  {
    LexTotal(a.name, b.name);
    LexTotal(b.name, c.name);
    if LexLess(c.name, b.name) && LexLess(b.name, a.name) {
      LexTransitive(c.name, b.name, a.name);
    }
    LexTotal(a.name, c.name);
    if LexLess(a.name, c.name) && LexLess(c.name, a.name) {
      LexTransitive(a.name, c.name, a.name);
      LexIrreflexive(a.name);
    }
  }

  /**
    The two byte-wise revisions order distinct entries strictly, so a sorted listing is
    unique (see `SortedUnique`); `strcoll` may tie distinct names.
   */
  lemma ByteOrdersAreTotal(o: Order, a: DirEntry, b: DirEntry)
    requires !o.CollateParentFirst?
    ensures a == b || Less(o, a, b) || Less(o, b, a)
  {
    LexTotal(a.name, b.name);
  }

  /** The first revision has no special case for `..`: a directory "-a" sorts before it. */
  lemma ByteOrderCanPutDirBeforeParent()
    ensures Less(ByteOrder, DirEntry("-a", true), ParentEntry)
    ensures Less(ByteOrderParentFirst, ParentEntry, DirEntry("-a", true))
  {
  }

  /** No element is smaller than one before it. */
  ghost predicate Sorted(o: Order, s: seq<DirEntry>)
  {
    forall i, j :: 0 <= i < j < |s| ==> !Less(o, s[j], s[i])
  }

  /** Inserts `x` before the first element that is not smaller than it. */
  function Insert(o: Order, x: DirEntry, s: seq<DirEntry>): (r: seq<DirEntry>)
    ensures multiset(r) == multiset(s) + multiset{x}
  {
    if s == [] then [x]
    else if Less(o, s[0], x) then
      assert s == [s[0]] + s[1..];
      [s[0]] + Insert(o, x, s[1..])
    else [x] + s
  }

  /** The model of `std::sort(files.begin(), files.end())`. */
  function SortBy(o: Order, s: seq<DirEntry>): (r: seq<DirEntry>)
    ensures multiset(r) == multiset(s)
  {
    if s == [] then []
    else
      assert s == [s[0]] + s[1..];
      Insert(o, s[0], SortBy(o, s[1..]))
  }

  lemma {:induction false} InsertSorted(o: Order, x: DirEntry, s: seq<DirEntry>)
    requires StrictWeakOrder(o)
    requires Sorted(o, s)
    ensures Sorted(o, Insert(o, x, s))
  {
    if s == [] {
    } else if Less(o, s[0], x) {
      SortedTail(o, s);
      InsertSorted(o, x, s[1..]);
      InsertedNotBelowHead(o, x, s);
      SortedCons(o, s[0], Insert(o, x, s[1..]));
    } else {
      forall j | 0 <= j < |s|
        ensures !Less(o, s[j], x)
      {
        if j > 0 {
          assert !Less(o, s[j], s[0]);
        }
      }
      SortedCons(o, x, s);
    }
  }

  /** Inserting above the head of a sorted sequence keeps everything at or above it. */
  lemma InsertedNotBelowHead(o: Order, x: DirEntry, s: seq<DirEntry>)
    requires StrictWeakOrder(o)
    requires Sorted(o, s) && s != [] && Less(o, s[0], x)
    ensures forall j :: 0 <= j < |Insert(o, x, s[1..])| ==> !Less(o, Insert(o, x, s[1..])[j], s[0])
  {
    var tail := Insert(o, x, s[1..]);
    forall j | 0 <= j < |tail|
      ensures !Less(o, tail[j], s[0])
    {
      assert tail[j] in multiset(tail);
      if tail[j] != x {
        assert tail[j] in multiset(s[1..]);
        var k :| 0 <= k < |s[1..]| && s[1..][k] == tail[j];
        assert s[k + 1] == tail[j];
      }
    }
  }

  /** A sorted sequence stays sorted under a head no later element is smaller than. */
  lemma SortedCons(o: Order, h: DirEntry, s: seq<DirEntry>)
    requires Sorted(o, s)
    requires forall j :: 0 <= j < |s| ==> !Less(o, s[j], h)
    ensures Sorted(o, [h] + s)
  {
    var r := [h] + s;
    forall i, j | 0 <= i < j < |r|
      ensures !Less(o, r[j], r[i])
    {
      assert r[j] == s[j - 1];
      if i > 0 {
        assert r[i] == s[i - 1];
      }
    }
  }

  /** The sort's result is ordered; with the `multiset` ensures of `SortBy` it is a sort. */
  lemma {:induction false} SortBySorted(o: Order, s: seq<DirEntry>)
    requires ValidOrder(o)
    ensures Sorted(o, SortBy(o, s))
  {
    LessIsStrictWeakOrder(o);
    if s != [] {
      SortBySorted(o, s[1..]);
      InsertSorted(o, s[0], SortBy(o, s[1..]));
    }
  }

  /** No element of a sorted sequence is smaller than its first one. */
  lemma SortedHeadIsLeast(o: Order, s: seq<DirEntry>, x: DirEntry)
    requires ValidOrder(o)
    requires Sorted(o, s)
    requires x in s
    ensures !Less(o, x, s[0])
  {
    var k :| 0 <= k < |s| && s[k] == x;
    if k > 0 {
      assert !Less(o, s[k], s[0]);
    } else {
      LexIrreflexive(x.name);
    }
  }

  /**
    For the byte-wise orders any two sorted arrangements of the same entries are equal,
    so the model's sort gives exactly what `std::sort` gives.
   */
  lemma {:induction false} SortedUnique(o: Order, s: seq<DirEntry>, t: seq<DirEntry>)
    requires !o.CollateParentFirst?
    requires Sorted(o, s) && Sorted(o, t)
    requires multiset(s) == multiset(t)
    ensures s == t
  {
    assert |t| == |s| by {
      assert |multiset(s)| == |s| && |multiset(t)| == |t|;
    }
    if s != [] {
      SortedSameHead(o, s, t);
      SameTails(s, t);
      SortedTail(o, s);
      SortedTail(o, t);
      SortedUnique(o, s[1..], t[1..]);
      assert s == [s[0]] + s[1..] && t == [t[0]] + t[1..];
    }
  }

  /** Two sorted arrangements of the same entries start alike under a byte-wise order. */
  lemma SortedSameHead(o: Order, s: seq<DirEntry>, t: seq<DirEntry>)
    requires !o.CollateParentFirst?
    requires Sorted(o, s) && Sorted(o, t)
    requires multiset(s) == multiset(t) && s != [] && t != []
    ensures s[0] == t[0]
  {
    assert s[0] in multiset(t) && t[0] in multiset(s);
    SortedHeadIsLeast(o, t, s[0]);
    SortedHeadIsLeast(o, s, t[0]);
    ByteOrdersAreTotal(o, s[0], t[0]);
  }

  lemma SameTails(s: seq<DirEntry>, t: seq<DirEntry>)
    requires multiset(s) == multiset(t) && s != [] && t != [] && s[0] == t[0]
    ensures multiset(s[1..]) == multiset(t[1..])
  {
    assert s == [s[0]] + s[1..] && t == [t[0]] + t[1..];
    assert multiset(s[1..]) == multiset(s) - multiset{s[0]};
    assert multiset(t[1..]) == multiset(t) - multiset{t[0]};
  }

  lemma SortedTail(o: Order, s: seq<DirEntry>)
    requires Sorted(o, s) && s != []
    ensures Sorted(o, s[1..])
  {
    forall i, j | 0 <= i < j < |s[1..]|
      ensures !Less(o, s[1..][j], s[1..][i])
    {
      assert s[1..][j] == s[j + 1] && s[1..][i] == s[i + 1];
    }
  }

  /** In a sorted listing every directory comes before every file. */
  lemma SortedDirsFirst(o: Order, s: seq<DirEntry>, i: int, j: int)
    requires Sorted(o, s)
    requires 0 <= i < j < |s| && s[j].isDir
    ensures s[i].isDir
  {
    assert !Less(o, s[j], s[i]);
  }

  /** With a revision that puts `..` first, a sorted listing holding `..` starts with it. */
  lemma SortedParentFirst(o: Order, s: seq<DirEntry>)
    requires !o.ByteOrder?
    requires Sorted(o, s)
    requires ParentEntry in s
    ensures s[0] == ParentEntry
  {
    var k :| 0 <= k < |s| && s[k] == ParentEntry;
    if k > 0 {
      assert !Less(o, s[k], s[0]);
    }
  }
}
