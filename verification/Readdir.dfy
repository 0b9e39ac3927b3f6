/** Paged directory listings.  A page remembers, per returned offset, the name it stood for, so that the next page
    resumes behind that name however the directory has changed meanwhile. */
module Readdir {
  import opened Types
  import opened Schema

  // ----- names in order -----

  /** The order of `ORDER BY name`. */
  predicate Less(a: Name, b: Name) {
    b != [] && (a == [] || a[0] < b[0] || (a[0] == b[0] && Less(a[1..], b[1..])))
  }

  lemma {:induction false} LessOnce(a: Name, b: Name)
    ensures !(Less(a, b) && Less(b, a))
    ensures a == b ==> !Less(a, b)
    ensures a == b || Less(a, b) || Less(b, a)
  {
    if a != [] && b != [] {
      LessOnce(a[1..], b[1..]);
      assert a == [a[0]] + a[1..] && b == [b[0]] + b[1..];
    }
  }

  lemma {:induction false} LessTransitive(a: Name, b: Name, c: Name)
    requires Less(a, b) && Less(b, c)
    ensures Less(a, c)
  {
    if a != [] && a[0] == b[0] && b[0] == c[0] {
      LessTransitive(a[1..], b[1..], c[1..]);
    }
  }

  predicate IsLeast(names: set<Name>, m: Name) {
    m in names && forall n :: n in names && n != m ==> Less(m, n)
  }

  lemma {:induction false} LeastExists(names: set<Name>)
    requires names != {}
    ensures exists m :: IsLeast(names, m)
    decreases |names|
  {
    var n :| n in names;
    var rest := names - {n};
    assert names == rest + {n};
    if rest == {} {
      assert IsLeast(names, n);
    } else {
      LeastExists(rest);
      var m :| IsLeast(rest, m);
      LessOnce(m, n);
      if Less(m, n) {
        assert IsLeast(names, m);
      } else {
        forall k | k in names && k != n ensures Less(n, k) {
          if k != m {
            LessTransitive(n, m, k);
          }
        }
        assert IsLeast(names, n);
      }
    }
  }

  lemma LeastUnique(names: set<Name>, m: Name, n: Name)
    requires IsLeast(names, m) && IsLeast(names, n)
    ensures m == n
  {
    LessOnce(m, n);
  }

  function Least(names: set<Name>): (m: Name)
    requires names != {}
    ensures IsLeast(names, m)
  {
    LeastExists(names);
    assert forall m, n :: IsLeast(names, m) && IsLeast(names, n) ==> m == n by {
      forall m, n | IsLeast(names, m) && IsLeast(names, n) ensures m == n { LeastUnique(names, m, n); }
    }
    var m :| IsLeast(names, m);
    m
  }

  /** All names in order. */
  function Sorted(names: set<Name>): (s: seq<Name>)
    ensures |s| == |names| && forall n :: n in s <==> n in names
    decreases |names|
  {
    if names == {} then []
    else
      var m := Least(names);
      assert names == (names - {m}) + {m};
      [m] + Sorted(names - {m})
  }

  predicate Increasing(s: seq<Name>) {
    forall i, j :: 0 <= i < j < |s| ==> Less(s[i], s[j])
  }

  lemma {:induction false} SortedIncreases(names: set<Name>)
    ensures Increasing(Sorted(names))
    decreases |names|
  {
    if names != {} {
      var m := Least(names);
      SortedIncreases(names - {m});
      forall j | 0 <= j < |Sorted(names - {m})| ensures Less(m, Sorted(names - {m})[j]) {
        assert Sorted(names - {m})[j] in names - {m};
      }
    }
  }

  // ----- the queries -----

  function Behind(names: set<Name>, after: Option<Name>): set<Name> {
    set n | n in names && (after.None? || Less(after.value, n))
  }

  function Take(s: seq<Name>, n: nat): seq<Name> {
    if n <= |s| then s[..n] else s
  }

  /** `children_after`: the first names behind the given one. */
  function ChildrenAfter(names: set<Name>, after: Option<Name>, limit: nat): seq<Name> {
    Take(Sorted(Behind(names, after)), limit)
  }

  /** `children_page`. */
  function ChildrenPage(names: set<Name>, offset: nat, limit: nat): seq<Name> {
    if offset <= |Sorted(names)| then Take(Sorted(names)[offset..], limit) else []
  }

  // ----- places in the order -----

  /** How many names come before `n`. */
  function Rank(names: set<Name>, n: Name): nat {
    |set m | m in names && Less(m, n)|
  }

  /** How many names do not come behind `n`. */
  function UpTo(names: set<Name>, n: Name): nat {
    |set m | m in names && !Less(n, m)|
  }

  lemma RankAfterLeast(names: set<Name>, n: Name)
    requires names != {} && n in names - {Least(names)}
    ensures Rank(names, n) == Rank(names - {Least(names)}, n) + 1
  {
    var least := Least(names);
    assert (set m | m in names && Less(m, n)) == (set m | m in names - {least} && Less(m, n)) + {least};
  }

  lemma RankOfLeast(names: set<Name>)
    requires names != {}
    ensures Rank(names, Least(names)) == 0
  {
    forall m | m in names ensures !Less(m, Least(names)) {
      LessOnce(m, Least(names));
    }
    assert (set m | m in names && Less(m, Least(names))) == {};
  }

  /** The name at a place of the sorted listing has that many names before it. */
  lemma {:induction false} RankInSorted(names: set<Name>, i: nat)
    requires i < |Sorted(names)|
    ensures Sorted(names)[i] in names && Rank(names, Sorted(names)[i]) == i
    decreases |names|
  {
    var least := Least(names);
    SortedAfterLeast(names);
    if i == 0 {
      RankOfLeast(names);
    } else {
      RankInSorted(names - {least}, i - 1);
      RankAfterLeast(names, Sorted(names)[i]);
    }
  }

  /** There is only one name at a place. */
  lemma RankUnique(names: set<Name>, m: Name, n: Name)
    requires m in names && n in names && Rank(names, m) == Rank(names, n)
    ensures m == n
  {
    LessOnce(m, n);
    if Less(m, n) {
      RankGrows(names, m, n);
    } else if Less(n, m) {
      RankGrows(names, n, m);
    }
  }

  lemma RankGrows(names: set<Name>, m: Name, n: Name)
    requires m in names && Less(m, n)
    ensures Rank(names, m) < Rank(names, n)
  {
    var below, more := set k | k in names && Less(k, m), set k | k in names && Less(k, n);
    forall k | k in below ensures k in more {
      LessTransitive(k, m, n);
    }
    LessOnce(m, m);
    assert m in more && m !in below;
    ProperlySmaller(below, more, m);
  }

  lemma ProperlySmaller(small: set<Name>, large: set<Name>, m: Name)
    requires small <= large && m in large && m !in small
    ensures |small| < |large|
  {
    assert small <= large - {m};
    SubsetSize(small, large - {m});
  }

  lemma {:induction false} SubsetSize(small: set<Name>, large: set<Name>)
    requires small <= large
    ensures |small| <= |large|
    decreases |small|
  {
    if small != {} {
      var m :| m in small;
      SubsetSize(small - {m}, large - {m});
    }
  }

  lemma SortedAfterLeast(names: set<Name>)
    requires names != {}
    ensures Sorted(names)[0] == Least(names) && Sorted(names)[1..] == Sorted(names - {Least(names)})
  {
  }

  lemma UpToLeast(names: set<Name>, n: Name)
    requires names != {}
    ensures Less(n, Least(names)) ==> UpTo(names, n) == 0 && Behind(names, Some(n)) == names
    ensures !Less(n, Least(names)) ==>
      && UpTo(names, n) == UpTo(names - {Least(names)}, n) + 1
      && Behind(names, Some(n)) == Behind(names - {Least(names)}, Some(n))
  {
    var least := Least(names);
    if Less(n, least) {
      forall m | m in names ensures Less(n, m) {
        if m != least {
          LessTransitive(n, least, m);
        }
      }
      assert (set m | m in names && !Less(n, m)) == {};
    } else {
      assert (set m | m in names && !Less(n, m)) == (set m | m in names - {least} && !Less(n, m)) + {least};
    }
  }

  /** The names behind one, in order, are a tail of the sorted listing, whether that name is in the directory or not. */
  lemma {:induction false} BehindIsRest(names: set<Name>, n: Name)
    ensures UpTo(names, n) <= |names| && Sorted(Behind(names, Some(n))) == Sorted(names)[UpTo(names, n)..]
    decreases |names|
  {
    if names == {} {
      assert Behind(names, Some(n)) == {} && (set m | m in names && !Less(n, m)) == {};
    } else {
      UpToLeast(names, n);
      if !Less(n, Least(names)) {
        BehindIsRest(names - {Least(names)}, n);
        SortedAfterLeast(names);
      }
    }
  }

  // ----- one call -----

  type Cursors = map<int, Name>

  function PageLimit(size: nat): (limit: nat)
    ensures 64 <= limit <= 4096 && (size == 0 ==> limit == 256)
    ensures 64 * 48 <= size <= 4096 * 48 ==> limit * 48 <= size < limit * 48 + 48
    ensures 0 < size < 64 * 48 ==> limit == 64
    ensures size > 4096 * 48 ==> limit == 4096
  {
    Max(64, Min(4096, if size == 0 then 256 else size / 48))
  }

  function CursorsNow(cursors: Cursors, offset: int): Cursors {
    if offset <= 0 then map[] else cursors
  }

  function AfterName(cursors: Cursors, offset: int): Option<Name> {
    if offset > 0 && offset in cursors then Some(cursors[offset]) else None
  }

  /** The children a call lists, and the offset of the first of them. */
  function Page(names: set<Name>, cursors: Cursors, offset: int, size: nat): seq<Name> {
    if offset <= 2 || AfterName(cursors, offset).Some?
    then ChildrenAfter(names, AfterName(cursors, offset), PageLimit(size))
    else ChildrenPage(names, offset - 2, PageLimit(size))
  }

  function FirstId(cursors: Cursors, offset: int): int {
    if offset <= 2 || AfterName(cursors, offset).Some? then Max(2, offset) + 1 else offset + 1
  }

  /** `_remember_dir_cursor` for every listed child. */
  function Remember(cursors: Cursors, first: int, page: seq<Name>): (r: Cursors)
    ensures forall i :: i in r <==> i in cursors || first <= i < first + |page|
    ensures forall i :: i in r ==> r[i] == if first <= i < first + |page| then page[i - first] else cursors[i]
  {
    if page == [] then cursors else Remember(cursors, first, page[..|page| - 1])[first + |page| - 1 := page[|page| - 1]]
  }

  lemma RememberAt(cursors: Cursors, first: int, page: seq<Name>, o: int)
    ensures o in Remember(cursors, first, page) <==> o in cursors || first <= o < first + |page|
    ensures o in Remember(cursors, first, page) ==>
      Remember(cursors, first, page)[o] == if first <= o < first + |page| then page[o - first] else cursors[o]
  {
  }

  lemma RememberMore(cursors: Cursors, first: int, page: seq<Name>, i: nat)
    requires i < |page|
    ensures Remember(cursors, first, page[..i + 1]) == Remember(cursors, first, page[..i])[first + i := page[i]]
  {
    assert page[..i + 1][..i] == page[..i];
  }

  function Remembered(cursors: Cursors, offset: int, page: seq<Name>): Cursors {
    Remember(CursorsNow(cursors, offset), FirstId(cursors, offset), page)
  }

  datatype DirEntry = DirEntry(name: Name, offset: int)

  // ----- what a caller may rely on -----

  /** One call of `readdir` as its caller sees it, with the cursors of the handle before and after. */
  datatype Reply = Reply(names: set<Name>, offset: int, size: nat, entries: seq<DirEntry>, before: Cursors,
                         after: Cursors)

  predicate IsChild(e: DirEntry) {
    e.offset > 2
  }

  /** How many names the listing leaves out at its start. */
  function Skipped(names: set<Name>, cursors: Cursors, offset: int): nat {
    if offset > 0 && offset in cursors then UpTo(names, cursors[offset]) else if offset > 2 then offset - 2 else 0
  }

  /** Entries are numbered from the requested offset on, the dots under 1 and 2, and there are as many as the limit
      allows. */
  ghost predicate Numbered(r: Reply) {
    var asked := Max(r.offset, 0);
    && |r.entries| == Max(2 - asked, 0)
         + Max(Min(|r.names| - Skipped(r.names, r.before, r.offset), PageLimit(r.size)), 0)
    && (forall i :: 0 <= i < |r.entries| ==> r.entries[i].offset == asked + 1 + i)
    && (forall i :: 0 <= i < |r.entries| && r.entries[i].offset == 1 ==> r.entries[i].name == ".")
    && (forall i :: 0 <= i < |r.entries| && r.entries[i].offset == 2 ==> r.entries[i].name == "..")
  }

  /** The children are the names of the directory in order, none left out. */
  ghost predicate InOrder(r: Reply) {
    forall i :: 0 <= i < |r.entries| && IsChild(r.entries[i]) ==>
      && r.entries[i].name in r.names
      && Rank(r.names, r.entries[i].name)
           == Skipped(r.names, r.before, r.offset) + (r.entries[i].offset - Max(r.offset, 2) - 1)
  }

  /** Every child is remembered under its own offset, and other offsets keep their names unless the call starts over. */
  ghost predicate Resumable(r: Reply) {
    && (forall i :: 0 <= i < |r.entries| && IsChild(r.entries[i]) ==>
          r.entries[i].offset in r.after && r.after[r.entries[i].offset] == r.entries[i].name)
    && (forall o :: o <= Max(r.offset, 2) || o > Max(r.offset, 0) + |r.entries| ==>
          (o in r.after <==> r.offset > 0 && o in r.before) && (o in r.after ==> r.after[o] == r.before[o]))
  }

  ghost predicate Answers(r: Reply) {
    Numbered(r) && InOrder(r) && Resumable(r)
  }

  // ----- the call answers, and there is only one answer -----

  function DotsOf(offset: int): seq<DirEntry> {
    (if offset < 1 then [DirEntry(".", 1)] else []) + (if offset < 2 then [DirEntry("..", 2)] else [])
  }

  /** The names from a place of a sorted listing on. */
  function PageAt(all: seq<Name>, skipped: nat, limit: nat): seq<Name> {
    if skipped <= |all| then Take(all[skipped..], limit) else []
  }

  lemma PageAtIs(all: seq<Name>, skipped: nat, limit: nat)
    ensures |PageAt(all, skipped, limit)| == Max(Min(|all| - skipped, limit), 0)
    ensures forall i :: 0 <= i < |PageAt(all, skipped, limit)| ==> PageAt(all, skipped, limit)[i] == all[skipped + i]
  {
  }

  lemma WholeSeq(all: seq<Name>)
    ensures all[0..] == all
  {
  }

  lemma AllBehindNone(names: set<Name>)
    ensures Behind(names, None) == names
  {
  }

  function PageFor(names: set<Name>, cursors: Cursors, offset: int, size: nat): seq<Name> {
    PageAt(Sorted(names), Skipped(names, cursors, offset), PageLimit(size))
  }

  lemma AfterIsAt(names: set<Name>, n: Name, limit: nat)
    ensures ChildrenAfter(names, Some(n), limit) == PageAt(Sorted(names), UpTo(names, n), limit)
  {
    BehindIsRest(names, n);
  }

  lemma FirstIsAt(names: set<Name>, limit: nat)
    ensures ChildrenAfter(names, None, limit) == PageAt(Sorted(names), 0, limit)
  {
    AllBehindNone(names);
    WholeSeq(Sorted(names));
  }

  lemma PageIsAt(names: set<Name>, cursors: Cursors, offset: int, size: nat)
    ensures Page(names, cursors, offset, size) == PageFor(names, cursors, offset, size)
    ensures FirstId(cursors, offset) == Max(2, offset) + 1
  {
    if offset > 0 && offset in cursors {
      AfterIsAt(names, cursors[offset], PageLimit(size));
    } else if offset <= 2 {
      FirstIsAt(names, PageLimit(size));
    }
  }

  lemma PageRanks(names: set<Name>, skipped: nat, limit: nat, i: nat)
    requires i < |PageAt(Sorted(names), skipped, limit)|
    ensures var name := PageAt(Sorted(names), skipped, limit)[i];
      name in names && Rank(names, name) == skipped + i
  {
    PageAtIs(Sorted(names), skipped, limit);
    RankInSorted(names, skipped + i);
  }

  function EntriesFor(offset: int, page: seq<Name>): seq<DirEntry> {
    DotsOf(offset) + Listed(page, Max(2, offset) + 1)
  }

  lemma EntriesAre(offset: int, page: seq<Name>)
    ensures |EntriesFor(offset, page)| == Max(2 - Max(offset, 0), 0) + |page|
    ensures forall i :: 0 <= i < |EntriesFor(offset, page)| ==>
      var e, at := EntriesFor(offset, page)[i], i - Max(2 - Max(offset, 0), 0);
      && e.offset == Max(offset, 0) + 1 + i
      && (e.offset == 1 ==> e.name == ".") && (e.offset == 2 ==> e.name == "..")
      && (IsChild(e) ==> 0 <= at < |page| && e.name == page[at] && e.offset - Max(offset, 2) - 1 == at)
  {
  }

  /** The reply for a page of names. */
  function ReplyOf(names: set<Name>, cursors: Cursors, offset: int, size: nat, page: seq<Name>): Reply {
    Reply(names, offset, size, EntriesFor(offset, page), cursors,
          Remember(CursorsNow(cursors, offset), Max(2, offset) + 1, page))
  }

  lemma ReplyNumbered(names: set<Name>, cursors: Cursors, offset: int, size: nat, page: seq<Name>)
    requires |page| == Max(Min(|names| - Skipped(names, cursors, offset), PageLimit(size)), 0)
    ensures Numbered(ReplyOf(names, cursors, offset, size, page))
  {
    EntriesAre(offset, page);
  }

  lemma ReplyInOrder(names: set<Name>, cursors: Cursors, offset: int, size: nat, page: seq<Name>)
    requires forall i :: 0 <= i < |page| ==>
      page[i] in names && Rank(names, page[i]) == Skipped(names, cursors, offset) + i
    ensures InOrder(ReplyOf(names, cursors, offset, size, page))
  {
    EntriesAre(offset, page);
  }

  lemma ChildRemembered(names: set<Name>, cursors: Cursors, offset: int, size: nat, page: seq<Name>, i: nat)
    requires i < |EntriesFor(offset, page)| && IsChild(EntriesFor(offset, page)[i])
    ensures var r := ReplyOf(names, cursors, offset, size, page);
      r.entries[i].offset in r.after && r.after[r.entries[i].offset] == r.entries[i].name
  {
    EntriesAre(offset, page);
    RememberAt(CursorsNow(cursors, offset), Max(2, offset) + 1, page, EntriesFor(offset, page)[i].offset);
  }

  lemma OtherRemembered(cursors: Cursors, offset: int, page: seq<Name>, o: int)
    requires o <= Max(offset, 2) || o > Max(offset, 0) + |EntriesFor(offset, page)|
    ensures var after := Remember(CursorsNow(cursors, offset), Max(2, offset) + 1, page);
      (o in after <==> offset > 0 && o in cursors) && (o in after ==> after[o] == cursors[o])
  {
    RememberAt(CursorsNow(cursors, offset), Max(2, offset) + 1, page, o);
  }

  lemma ReplyResumable(names: set<Name>, cursors: Cursors, offset: int, size: nat, page: seq<Name>)
    ensures Resumable(ReplyOf(names, cursors, offset, size, page))
  {
    var r := ReplyOf(names, cursors, offset, size, page);
    forall i | 0 <= i < |r.entries| && IsChild(r.entries[i])
      ensures r.entries[i].offset in r.after && r.after[r.entries[i].offset] == r.entries[i].name
    {
      ChildRemembered(names, cursors, offset, size, page, i);
    }
    forall o | o <= Max(offset, 2) || o > Max(offset, 0) + |r.entries|
      ensures (o in r.after <==> offset > 0 && o in cursors) && (o in r.after ==> r.after[o] == cursors[o])
    {
      OtherRemembered(cursors, offset, page, o);
    }
  }

  lemma PageAnswers(names: set<Name>, cursors: Cursors, offset: int, size: nat)
    ensures Answers(ReplyOf(names, cursors, offset, size, PageFor(names, cursors, offset, size)))
  {
    var page := PageFor(names, cursors, offset, size);
    PageAtIs(Sorted(names), Skipped(names, cursors, offset), PageLimit(size));
    forall i | 0 <= i < |page|
      ensures page[i] in names && Rank(names, page[i]) == Skipped(names, cursors, offset) + i
    {
      PageRanks(names, Skipped(names, cursors, offset), PageLimit(size), i);
    }
    ReplyNumbered(names, cursors, offset, size, page);
    ReplyInOrder(names, cursors, offset, size, page);
    ReplyResumable(names, cursors, offset, size, page);
  }

  lemma SameEntry(r: Reply, only: Reply, i: nat)
    requires Numbered(r) && Numbered(only) && InOrder(r) && InOrder(only) && r.names == only.names
    requires r.offset == only.offset && i < |r.entries| && i < |only.entries|
    requires Skipped(r.names, r.before, r.offset) == Skipped(only.names, only.before, only.offset)
    ensures r.entries[i] == only.entries[i]
  {
    if IsChild(r.entries[i]) {
      RankUnique(r.names, r.entries[i].name, only.entries[i].name);
    }
  }

  lemma SameCursor(r: Reply, only: Reply, o: int)
    requires Resumable(r) && Resumable(only) && r.entries == only.entries && r.before == only.before
    requires r.offset == only.offset && Numbered(r)
    ensures o in r.after <==> o in only.after
    ensures o in r.after ==> r.after[o] == only.after[o]
  {
    if Max(r.offset, 2) < o <= Max(r.offset, 0) + |r.entries| {
      assert IsChild(r.entries[o - Max(r.offset, 0) - 1]);
    }
  }

  lemma CallAnswers(names: set<Name>, cursors: Cursors, offset: int, size: nat)
    ensures FirstId(cursors, offset) == Max(2, offset) + 1
    ensures Answers(ReplyOf(names, cursors, offset, size, Page(names, cursors, offset, size)))
  {
    PageIsAt(names, cursors, offset, size);
    PageAnswers(names, cursors, offset, size);
  }

  lemma SameReply(r: Reply, only: Reply)
    requires Answers(r) && Answers(only) && r.names == only.names && r.offset == only.offset
    requires r.before == only.before && r.size == only.size
    ensures r == only
  {
    forall i | 0 <= i < |r.entries| ensures r.entries[i] == only.entries[i] {
      SameEntry(r, only, i);
    }
    assert r.entries == only.entries;
    forall o
      ensures o in r.after <==> o in only.after
      ensures o in r.after ==> r.after[o] == only.after[o]
    {
      SameCursor(r, only, o);
    }
    assert r.after == only.after;
  }

  /** What a caller may rely on leaves only one reply. */
  lemma AnswersIs(r: Reply)
    requires Answers(r)
    ensures r == ReplyOf(r.names, r.before, r.offset, r.size, Page(r.names, r.before, r.offset, r.size))
  {
    PageIsAt(r.names, r.before, r.offset, r.size);
    PageAnswers(r.names, r.before, r.offset, r.size);
    SameReply(r, ReplyOf(r.names, r.before, r.offset, r.size, PageFor(r.names, r.before, r.offset, r.size)));
  }

  class DirHandle {
    var cursors: Cursors

    constructor ()
      ensures cursors == map[]
    {
      cursors := map[];
    }

    /** `_readdir_inode` on a directory with the given names. */
    method ReadDir(names: set<Name>, offset: int, size: nat) returns (entries: seq<DirEntry>)
      modifies this
      ensures Answers(Reply(names, offset, size, entries, old(cursors), cursors))
      ensures forall i :: 0 <= i < |entries| && entries[i].offset > 2 ==>
        entries[i].offset in cursors && cursors[entries[i].offset] == entries[i].name
    {
      ghost var before, page := cursors, Page(names, cursors, offset, size);
      CallAnswers(names, cursors, offset, size);
      entries := [];
      if offset < 1 {
        entries := entries + [DirEntry(".", 1)];
      }
      if offset < 2 {
        entries := entries + [DirEntry("..", 2)];
      }
      assert entries == DotsOf(offset);
      var children, first := Select(names, offset, size);
      var listed := List(children, first);
      entries := entries + listed;
      assert Reply(names, offset, size, entries, before, cursors) == ReplyOf(names, before, offset, size, page);
    }

    /** The cursor lookup and the query. */
    method Select(names: set<Name>, offset: int, size: nat) returns (children: seq<Name>, first: int)
      modifies this
      ensures children == Page(names, old(cursors), offset, size) && first == FirstId(old(cursors), offset)
      ensures cursors == CursorsNow(old(cursors), offset)
    {
      var limit := PageLimit(size);
      var after := None;
      if offset <= 0 {
        cursors := map[];
      } else if offset in cursors {
        after := Some(cursors[offset]);
      }
      if offset <= 2 || after.Some? {
        return ChildrenAfter(names, after, limit), Max(2, offset) + 1;
      }
      return ChildrenPage(names, Max(0, offset - 2), limit), Max(0, offset - 2) + 3;
    }

    method List(children: seq<Name>, first: int) returns (entries: seq<DirEntry>)
      modifies this
      ensures entries == Listed(children, first) && cursors == Remember(old(cursors), first, children)
    {
      entries := [];
      for i := 0 to |children|
        invariant entries == Listed(children[..i], first) && cursors == Remember(old(cursors), first, children[..i])
      {
        RememberMore(old(cursors), first, children, i);
        cursors := cursors[first + i := children[i]];
        entries := entries + [DirEntry(children[i], first + i)];
      }
      assert children[..|children|] == children;
    }
  }

  function Listed(page: seq<Name>, first: int): seq<DirEntry> {
    seq(|page|, i requires 0 <= i < |page| => DirEntry(page[i], first + i))
  }

  // ----- a scan -----

  /** One call of a scan: the directory as it is then, the buffer size, how many children the caller consumed, and
      where it resumes when it consumed none while at the dots. */
  datatype Call = Call(names: set<Name>, size: nat, consumed: nat, dots: int)

  /** Where a scan stands, with the child names it has seen. */
  datatype Scan = Scan(cursors: Cursors, offset: int, seen: seq<Name>)

  function PageOf(s: Scan, c: Call): seq<Name> {
    Page(c.names, s.cursors, s.offset, c.size)
  }

  /** The caller resumes at the offset of the last entry it consumed. */
  function AfterCall(s: Scan, c: Call): Scan
    requires c.consumed <= |PageOf(s, c)|
  {
    Scan(Remembered(s.cursors, s.offset, PageOf(s, c)),
         if c.consumed == 0 then (if s.offset > 2 then s.offset else Min(c.dots, 2))
           else FirstId(s.cursors, s.offset) + c.consumed - 1,
         s.seen + PageOf(s, c)[..c.consumed])
  }

  ghost predicate IsScan(s: Scan, calls: seq<Call>)
    decreases |calls|
  {
    calls == [] || (calls[0].consumed <= |PageOf(s, calls[0])| && IsScan(AfterCall(s, calls[0]), calls[1..]))
  }

  function AfterCalls(s: Scan, calls: seq<Call>): Scan
    requires IsScan(s, calls)
    decreases |calls|
  {
    if calls == [] then s else AfterCalls(AfterCall(s, calls[0]), calls[1..])
  }

  const BEGIN := Scan(map[], 0, [])

  function LastSeen(s: Scan): Option<Name> {
    if s.seen == [] then None else Some(s.seen[|s.seen| - 1])
  }

  /** Names are seen in order, and the cursor at the current offset is the last of them. */
  ghost predicate ScanInv(s: Scan) {
    && Increasing(s.seen)
    && (if s.seen == [] then s.offset <= 2 && 1 !in s.cursors && 2 !in s.cursors
        else s.offset > 2 && s.offset in s.cursors && s.cursors[s.offset] == s.seen[|s.seen| - 1])
  }

  lemma PageFollows(s: Scan, c: Call)
    requires ScanInv(s)
    ensures PageOf(s, c) == ChildrenAfter(c.names, LastSeen(s), PageLimit(c.size))
    ensures FirstId(s.cursors, s.offset) == Max(2, s.offset) + 1
    ensures Increasing(PageOf(s, c)) && forall n :: n in PageOf(s, c) ==> n in Behind(c.names, LastSeen(s))
  {
    SortedIncreases(Behind(c.names, LastSeen(s)));
  }

  lemma IncreasingJoin(seen: seq<Name>, page: seq<Name>)
    requires Increasing(seen) && Increasing(page)
    requires seen != [] ==> forall n :: n in page ==> Less(seen[|seen| - 1], n)
    ensures Increasing(seen + page)
  {
    forall i, j | 0 <= i < j < |seen + page| ensures Less((seen + page)[i], (seen + page)[j]) {
      if i < |seen| <= j {
        assert page[j - |seen|] in page;
        LastIsLargest(seen, i, page[j - |seen|]);
      }
    }
  }

  lemma SeenIncreases(s: Scan, c: Call)
    requires ScanInv(s) && c.consumed <= |PageOf(s, c)|
    ensures Increasing(s.seen + PageOf(s, c)[..c.consumed])
  {
    PageFollows(s, c);
    var consumed := PageOf(s, c)[..c.consumed];
    forall n | n in consumed ensures n in PageOf(s, c) {
    }
    IncreasingJoin(s.seen, consumed);
  }

  lemma CursorAtOffset(cursors: Cursors, first: int, page: seq<Name>, count: nat)
    requires 0 < count <= |page|
    ensures first + count - 1 in Remember(cursors, first, page)
    ensures Remember(cursors, first, page)[first + count - 1] == page[count - 1]
  {
    var remembered, at := Remember(cursors, first, page), first + count - 1;
    assert at in remembered;
    assert remembered[at] == page[at - first];
  }

  lemma CursorStays(cursors: Cursors, first: int, page: seq<Name>, i: int)
    requires i < first
    ensures i in Remember(cursors, first, page) <==> i in cursors
    ensures i in cursors ==> Remember(cursors, first, page)[i] == cursors[i]
  {
  }

  lemma LastOfJoin(seen: seq<Name>, page: seq<Name>, count: nat)
    requires 0 < count <= |page|
    ensures (seen + page[..count])[|seen + page[..count]| - 1] == page[count - 1]
  {
  }

  lemma IdleCallKeepsInv(s: Scan, c: Call)
    requires ScanInv(s) && c.consumed == 0
    ensures ScanInv(AfterCall(s, c))
  {
    PageFollows(s, c);
    var page, first, now := PageOf(s, c), FirstId(s.cursors, s.offset), CursorsNow(s.cursors, s.offset);
    assert s.seen + page[..0] == s.seen;
    CursorStays(now, first, page, s.offset);
    CursorStays(now, first, page, 1);
    CursorStays(now, first, page, 2);
  }

  lemma BusyCallKeepsInv(s: Scan, c: Call)
    requires ScanInv(s) && 0 < c.consumed <= |PageOf(s, c)|
    ensures ScanInv(AfterCall(s, c))
  {
    PageFollows(s, c);
    SeenIncreases(s, c);
    JoinStands(CursorsNow(s.cursors, s.offset), FirstId(s.cursors, s.offset), PageOf(s, c), s.seen, c.consumed);
  }

  /** The cursor of the last name consumed is where the scan resumes. */
  lemma JoinStands(cursors: Cursors, first: int, page: seq<Name>, seen: seq<Name>, count: nat)
    requires 2 < first && 0 < count <= |page| && Increasing(seen + page[..count])
    ensures ScanInv(Scan(Remember(cursors, first, page), first + count - 1, seen + page[..count]))
  {
    CursorAtOffset(cursors, first, page, count);
    LastOfJoin(seen, page, count);
  }

  lemma CallKeepsInv(s: Scan, c: Call)
    requires ScanInv(s) && c.consumed <= |PageOf(s, c)|
    ensures ScanInv(AfterCall(s, c))
  {
    if c.consumed == 0 {
      IdleCallKeepsInv(s, c);
    } else {
      BusyCallKeepsInv(s, c);
    }
  }

  lemma LastIsLargest(seen: seq<Name>, i: nat, n: Name)
    requires Increasing(seen) && i < |seen| && Less(seen[|seen| - 1], n)
    ensures Less(seen[i], n)
  {
    if i < |seen| - 1 {
      LessTransitive(seen[i], seen[|seen| - 1], n);
    }
  }

  /** A name the scan has passed has been seen. */
  ghost predicate Passed(s: Scan, n: Name) {
    LastSeen(s).Some? && !Less(LastSeen(s).value, n)
  }

  lemma PrefixCovers(all: seq<Name>, n: Name, count: nat)
    requires Increasing(all) && n in all && 0 < count <= |all| && !Less(all[count - 1], n)
    ensures n in all[..count]
  {
    var k :| 0 <= k < |all| && all[k] == n;
    assert k <= count - 1;
    assert all[..count][k] == n;
  }

  lemma NotPassedIsBehind(s: Scan, names: set<Name>, n: Name)
    requires n in names && !Passed(s, n)
    ensures n in Sorted(Behind(names, LastSeen(s)))
  {
  }

  lemma TakePrefix(s: seq<Name>, limit: nat, count: nat)
    requires count <= |Take(s, limit)|
    ensures count <= |s| && Take(s, limit)[..count] == s[..count]
  {
  }

  lemma PageCovers(s: Scan, c: Call, n: Name)
    requires ScanInv(s) && 0 < c.consumed <= |PageOf(s, c)| && n in c.names
    requires !Passed(s, n) && !Less(PageOf(s, c)[c.consumed - 1], n)
    ensures n in PageOf(s, c)[..c.consumed]
  {
    PageFollows(s, c);
    var all := Sorted(Behind(c.names, LastSeen(s)));
    SortedIncreases(Behind(c.names, LastSeen(s)));
    NotPassedIsBehind(s, c.names, n);
    TakePrefix(all, PageLimit(c.size), c.consumed);
    PrefixCovers(all, n, c.consumed);
  }

  lemma NewlyPassed(s: Scan, c: Call, n: Name)
    requires ScanInv(s) && 0 < c.consumed <= |PageOf(s, c)| && n in c.names
    requires !Passed(s, n) && Passed(AfterCall(s, c), n)
    ensures n in PageOf(s, c)[..c.consumed]
  {
    LastOfJoin(s.seen, PageOf(s, c), c.consumed);
    PageCovers(s, c, n);
  }

  lemma IdleCallSees(s: Scan, c: Call)
    requires c.consumed == 0
    ensures AfterCall(s, c).seen == s.seen
  {
  }

  /** A name that is in the directory now and that the call passes is seen by it. */
  lemma CallMissesNothing(s: Scan, c: Call, n: Name)
    requires ScanInv(s) && c.consumed <= |PageOf(s, c)| && n in c.names
    requires Passed(AfterCall(s, c), n) && (Passed(s, n) ==> n in s.seen)
    ensures n in AfterCall(s, c).seen
  {
    if c.consumed == 0 {
      IdleCallSees(s, c);
    } else if !Passed(s, n) {
      NewlyPassed(s, c, n);
    }
  }

  lemma {:induction false} ScanFacts(s: Scan, calls: seq<Call>, n: Name)
    requires ScanInv(s) && IsScan(s, calls)
    ensures ScanInv(AfterCalls(s, calls))
    ensures (forall i :: 0 <= i < |calls| ==> n in calls[i].names) && (Passed(s, n) ==> n in s.seen)
      && Passed(AfterCalls(s, calls), n)
      ==> n in AfterCalls(s, calls).seen
    decreases |calls|
  {
    if calls != [] {
      CallKeepsInv(s, calls[0]);
      ScanFacts(AfterCall(s, calls[0]), calls[1..], n);
      if (forall i :: 0 <= i < |calls| ==> n in calls[i].names) && (Passed(s, n) ==> n in s.seen) {
        assert n in calls[0].names;
        if Passed(AfterCall(s, calls[0]), n) {
          CallMissesNothing(s, calls[0], n);
        }
      }
    }
  }

  /** When a call lists nothing more, every name present throughout has been seen. */
  lemma CallsMissNothing(calls: seq<Call>, last: Call, n: Name)
    requires IsScan(BEGIN, calls) && PageOf(AfterCalls(BEGIN, calls), last) == []
    requires n in last.names && forall i :: 0 <= i < |calls| ==> n in calls[i].names
    ensures n in AfterCalls(BEGIN, calls).seen
  {
    var s := AfterCalls(BEGIN, calls);
    ScanFacts(BEGIN, calls, n);
    PageFollows(s, last);
    assert Behind(last.names, LastSeen(s)) == {};
    assert n !in Behind(last.names, LastSeen(s));
  }

  lemma SeenOnce(seen: seq<Name>, n: Name)
    requires Increasing(seen) && n in seen
    ensures exists k :: IsOnlyPlace(seen, n, k)
  {
    var k :| 0 <= k < |seen| && seen[k] == n;
    LessOnce(n, n);
    assert IsOnlyPlace(seen, n, k);
  }

  /** The name stands at place `k` and nowhere else. */
  predicate IsOnlyPlace(s: seq<Name>, n: Name, k: nat) {
    k < |s| && s[k] == n && forall j :: 0 <= j < |s| && s[j] == n ==> j == k
  }

  // ----- the same over what callers receive -----

  /** A call and how many of its entries the caller consumed. */
  datatype Turn = Turn(reply: Reply, consumed: nat)

  /** The caller resumes at the offset of the last entry it consumed. */
  function ResumeAt(t: Turn): int
    requires t.consumed <= |t.reply.entries|
  {
    if t.consumed == 0 then t.reply.offset else t.reply.entries[t.consumed - 1].offset
  }

  function NamesOf(entries: seq<DirEntry>): seq<Name> {
    if entries == [] then []
    else
      var last := entries[|entries| - 1];
      NamesOf(entries[..|entries| - 1]) + if IsChild(last) then [last.name] else []
  }

  predicate Consumable(turns: seq<Turn>) {
    forall i :: 0 <= i < |turns| ==> turns[i].consumed <= |turns[i].reply.entries|
  }

  /** The names the caller consumed. */
  function Seen(turns: seq<Turn>): seq<Name>
    requires Consumable(turns)
  {
    if turns == [] then []
    else
      var last := turns[|turns| - 1];
      Seen(turns[..|turns| - 1]) + NamesOf(last.reply.entries[..last.consumed])
  }

  /** Calls on one handle, from the start of the directory on, each resuming where the caller stands. */
  ghost predicate IsListing(turns: seq<Turn>) {
    && Consumable(turns) && (forall i :: 0 <= i < |turns| ==> Answers(turns[i].reply))
    && (turns != [] ==> turns[0].reply.offset == 0)
    && (forall i :: 0 < i < |turns| ==>
          turns[i].reply.before == turns[i - 1].reply.after && turns[i].reply.offset == ResumeAt(turns[i - 1]))
  }

  lemma {:induction false} NamesTaken(offset: int, page: seq<Name>, k: nat)
    requires k <= |EntriesFor(offset, page)|
    ensures Max(k - Max(2 - Max(offset, 0), 0), 0) <= |page|
    ensures NamesOf(EntriesFor(offset, page)[..k]) == page[..Max(k - Max(2 - Max(offset, 0), 0), 0)]
  {
    EntriesAre(offset, page);
    if k > 0 {
      NamesTaken(offset, page, k - 1);
      assert EntriesFor(offset, page)[..k][..k - 1] == EntriesFor(offset, page)[..k - 1];
    }
  }

  function CallOf(t: Turn): Call
    requires t.consumed <= |t.reply.entries|
  {
    Call(t.reply.names, t.reply.size, |NamesOf(t.reply.entries[..t.consumed])|, ResumeAt(t))
  }

  /** Where a caller stands after a turn. */
  function AfterTurn(seen: seq<Name>, t: Turn): Scan
    requires t.consumed <= |t.reply.entries|
  {
    Scan(t.reply.after, ResumeAt(t), seen + NamesOf(t.reply.entries[..t.consumed]))
  }

  lemma SamePage(r: Reply, s: Scan)
    requires Answers(r) && s.offset == r.offset >= 0 && (s.cursors == r.before || r.offset == 0)
    ensures var page := Page(r.names, s.cursors, s.offset, r.size);
      r.entries == EntriesFor(r.offset, page) && r.after == Remembered(s.cursors, s.offset, page)
    ensures FirstId(s.cursors, s.offset) == Max(2, s.offset) + 1
  {
    AnswersIs(r);
    CallAnswers(r.names, r.before, r.offset, r.size);
  }

  /** Where a caller resumes after `k` of the entries for a page. */
  lemma ResumesAt(offset: int, page: seq<Name>, k: nat)
    requires k <= |EntriesFor(offset, page)| && offset >= 0
    ensures var at := if k == 0 then offset else EntriesFor(offset, page)[k - 1].offset;
      var count := |NamesOf(EntriesFor(offset, page)[..k])|;
      && at == offset + k && count <= |page| && NamesOf(EntriesFor(offset, page)[..k]) == page[..count]
      && at == if count == 0 then (if offset > 2 then offset else Min(at, 2)) else Max(2, offset) + count
  {
    EntriesAre(offset, page);
    NamesTaken(offset, page, k);
  }

  lemma TurnIsCall(s: Scan, t: Turn)
    requires Answers(t.reply) && t.consumed <= |t.reply.entries|
    requires s.offset == t.reply.offset >= 0 && (s.cursors == t.reply.before || t.reply.offset == 0)
    ensures CallOf(t).consumed <= |PageOf(s, CallOf(t))|
    ensures AfterCall(s, CallOf(t)) == AfterTurn(s.seen, t) && ResumeAt(t) >= 0
  {
    var c := CallOf(t);
    SamePage(t.reply, s);
    ResumesAt(t.reply.offset, PageOf(s, c), t.consumed);
    assert AfterCall(s, c).offset == ResumeAt(t);
    assert AfterCall(s, c).seen == s.seen + NamesOf(t.reply.entries[..t.consumed]);
  }

  lemma {:induction false} OneMoreCall(s: Scan, calls: seq<Call>, c: Call)
    requires IsScan(s, calls) && c.consumed <= |PageOf(AfterCalls(s, calls), c)|
    ensures IsScan(s, calls + [c]) && AfterCalls(s, calls + [c]) == AfterCall(AfterCalls(s, calls), c)
    decreases |calls|
  {
    if calls != [] {
      OneMoreCall(AfterCall(s, calls[0]), calls[1..], c);
      assert (calls + [c])[1..] == calls[1..] + [c];
    } else {
      assert calls + [c] == [c] && [c][1..] == [];
    }
  }

  function CallsOf(turns: seq<Turn>): seq<Call>
    requires Consumable(turns)
  {
    if turns == [] then [] else CallsOf(turns[..|turns| - 1]) + [CallOf(turns[|turns| - 1])]
  }

  /** Where the caller stands after all turns. */
  function Standing(turns: seq<Turn>): Scan
    requires Consumable(turns)
  {
    if turns == [] then BEGIN
    else AfterTurn(Seen(turns[..|turns| - 1]), turns[|turns| - 1])
  }

  /** The turn asks for what comes where the caller stands. */
  ghost predicate Continues(s: Scan, t: Turn) {
    && Answers(t.reply) && t.consumed <= |t.reply.entries|
    && s.offset == t.reply.offset && (s.cursors == t.reply.before || t.reply.offset == 0)
  }

  lemma ListingInit(turns: seq<Turn>)
    requires IsListing(turns) && turns != []
    ensures IsListing(turns[..|turns| - 1]) && Continues(Standing(turns[..|turns| - 1]), turns[|turns| - 1])
  {
    if |turns| > 1 {
      assert turns[..|turns| - 1][|turns| - 2] == turns[|turns| - 2];
    }
  }

  lemma {:induction false} ListingIsScan(turns: seq<Turn>)
    requires IsListing(turns)
    ensures IsScan(BEGIN, CallsOf(turns)) && AfterCalls(BEGIN, CallsOf(turns)) == Standing(turns)
    ensures Standing(turns).offset >= 0 && Standing(turns).seen == Seen(turns)
    decreases |turns|
  {
    if turns != [] {
      var init, last := turns[..|turns| - 1], turns[|turns| - 1];
      ListingInit(turns);
      ListingIsScan(init);
      TurnIsCall(Standing(init), last);
      OneMoreCall(BEGIN, CallsOf(init), CallOf(last));
    }
  }

  /** The name was in the directory at every call. */
  ghost predicate Throughout(turns: seq<Turn>, n: Name) {
    forall i :: 0 <= i < |turns| ==> n in turns[i].reply.names
  }

  lemma {:induction false} CallsHave(turns: seq<Turn>, n: Name)
    requires Consumable(turns) && Throughout(turns, n)
    ensures forall i :: 0 <= i < |CallsOf(turns)| ==> n in CallsOf(turns)[i].names
    decreases |turns|
  {
    if turns != [] {
      CallsHave(turns[..|turns| - 1], n);
    }
  }

  ghost predicate NoChild(r: Reply) {
    forall i :: 0 <= i < |r.entries| ==> !IsChild(r.entries[i])
  }

  lemma LastIsChild(offset: int, page: seq<Name>)
    requires page != []
    ensures |EntriesFor(offset, page)| > 0 && IsChild(EntriesFor(offset, page)[|EntriesFor(offset, page)| - 1])
  {
  }

  lemma NoChildrenNoPage(s: Scan, t: Turn)
    requires Continues(s, t) && s.offset >= 0 && NoChild(t.reply)
    ensures Page(t.reply.names, s.cursors, s.offset, t.reply.size) == []
    ensures NamesOf(t.reply.entries[..t.consumed]) == []
  {
    var page := Page(t.reply.names, s.cursors, s.offset, t.reply.size);
    SamePage(t.reply, s);
    if page != [] {
      LastIsChild(t.reply.offset, page);
      assert false;
    }
    NamesTaken(t.reply.offset, page, t.consumed);
  }

  lemma ListingMissesNothing(turns: seq<Turn>, last: Turn, n: Name)
    requires IsListing(turns) && Continues(Standing(turns), last) && NoChild(last.reply)
    requires n in last.reply.names && Throughout(turns, n)
    ensures n in Seen(turns)
  {
    ListingIsScan(turns);
    NoChildrenNoPage(Standing(turns), last);
    CallsHave(turns, n);
    CallsMissNothing(CallsOf(turns), CallOf(last), n);
  }

  lemma ListingIncreases(turns: seq<Turn>)
    requires IsListing(turns)
    ensures Increasing(Seen(turns))
  {
    ListingIsScan(turns);
    ScanFacts(BEGIN, CallsOf(turns), []);
  }

  lemma LastAddsNothing(turns: seq<Turn>)
    requires IsListing(turns) && turns != [] && NoChild(turns[|turns| - 1].reply)
    ensures Seen(turns) == Seen(turns[..|turns| - 1])
  {
    ListingInit(turns);
    ListingIsScan(turns[..|turns| - 1]);
    NoChildrenNoPage(Standing(turns[..|turns| - 1]), turns[|turns| - 1]);
  }

  lemma ThroughoutInit(turns: seq<Turn>, n: Name)
    requires Throughout(turns, n) && turns != []
    ensures Throughout(turns[..|turns| - 1], n) && n in turns[|turns| - 1].reply.names
  {
  }

  lemma PresentIsListed(turns: seq<Turn>, n: Name)
    requires IsListing(turns) && turns != [] && NoChild(turns[|turns| - 1].reply)
    requires Throughout(turns, n)
    ensures n in Seen(turns)
  {
    ListingInit(turns);
    LastAddsNothing(turns);
    ThroughoutInit(turns, n);
    ListingMissesNothing(turns[..|turns| - 1], turns[|turns| - 1], n);
  }

  /** A listing that runs until a call returns no child gives its caller every name present throughout exactly once, in
      name order, whatever is added or removed between the calls and however many entries of a call are consumed. */
  lemma ScanIsComplete(turns: seq<Turn>, n: Name)
    requires IsListing(turns) && turns != [] && NoChild(turns[|turns| - 1].reply)
    ensures Increasing(Seen(turns))
    ensures Throughout(turns, n) ==> exists k :: IsOnlyPlace(Seen(turns), n, k)
  {
    ListingIncreases(turns);
    if Throughout(turns, n) {
      PresentIsListed(turns, n);
      SeenOnce(Seen(turns), n);
    }
  }

  // ----- without a cursor -----

  lemma BehindLeast(names: set<Name>)
    requires names != {}
    ensures Behind(names, Some(Least(names))) == names - {Least(names)}
  {
    LessOnce(Least(names), Least(names));
  }

  lemma BehindOther(names: set<Name>, n: Name)
    requires names != {} && n in names - {Least(names)}
    ensures Behind(names, Some(n)) == Behind(names - {Least(names)}, Some(n))
  {
    LessOnce(Least(names), n);
  }

  lemma TailOfTail(all: seq<Name>, rest: seq<Name>, i: nat)
    requires 0 < i < |all| && all[1..] == rest
    ensures all[i] == rest[i - 1] && all[i + 1..] == rest[i..] && rest[i - 1] in rest
  {
  }

  lemma {:induction false} BehindIsTail(names: set<Name>, i: nat)
    requires i < |Sorted(names)|
    ensures Sorted(Behind(names, Some(Sorted(names)[i]))) == Sorted(names)[i + 1..]
    decreases |names|
  {
    var all, rest := Sorted(names), Sorted(names - {Least(names)});
    SortedAfterLeast(names);
    if i == 0 {
      BehindLeast(names);
    } else {
      TailOfTail(all, rest, i);
      BehindOther(names, rest[i - 1]);
      BehindIsTail(names - {Least(names)}, i - 1);
    }
  }

  /** The scan has seen a prefix of the sorted names, and offsets are positions. */
  ghost predicate Aligned(s: Scan, names: set<Name>) {
    s.seen <= Sorted(names) && (s.seen != [] ==> s.offset == |s.seen| + 2)
  }

  lemma AlignedPage(s: Scan, c: Call)
    requires ScanInv(s) && Aligned(s, c.names)
    ensures PageOf(s, c) == Take(Sorted(c.names)[|s.seen|..], PageLimit(c.size))
  {
    PageFollows(s, c);
    if s.seen == [] {
      assert Behind(c.names, None) == c.names;
    } else {
      assert s.seen[|s.seen| - 1] == Sorted(c.names)[|s.seen| - 1];
      BehindIsTail(c.names, |s.seen| - 1);
    }
  }

  lemma PrefixGrows(all: seq<Name>, seen: seq<Name>, count: nat)
    requires seen <= all && |seen| + count <= |all|
    ensures seen + all[|seen|..][..count] <= all
  {
    assert seen + all[|seen|..][..count] == all[..|seen| + count];
  }

  lemma CallKeepsAligned(s: Scan, c: Call)
    requires ScanInv(s) && Aligned(s, c.names) && c.consumed <= |PageOf(s, c)|
    ensures Aligned(AfterCall(s, c), c.names)
  {
    AlignedPage(s, c);
    PageFollows(s, c);
    var all := Sorted(c.names);
    TakePrefix(all[|s.seen|..], PageLimit(c.size), c.consumed);
    PrefixGrows(all, s.seen, c.consumed);
    assert AfterCall(s, c).seen == s.seen + all[|s.seen|..][..c.consumed];
  }

  /** While the directory does not change, offsets are positions in the sorted listing. */
  lemma {:induction false} UnchangedScan(s: Scan, calls: seq<Call>, names: set<Name>)
    requires ScanInv(s) && IsScan(s, calls) && Aligned(s, names) && forall i ::
      0 <= i < |calls| ==> calls[i].names == names
    ensures Aligned(AfterCalls(s, calls), names) && ScanInv(AfterCalls(s, calls))
    decreases |calls|
  {
    if calls != [] {
      CallKeepsInv(s, calls[0]);
      CallKeepsAligned(s, calls[0]);
      UnchangedScan(AfterCall(s, calls[0]), calls[1..], names);
    }
  }

  lemma UpToMember(names: set<Name>, n: Name)
    requires n in names
    ensures UpTo(names, n) == Rank(names, n) + 1
  {
    var upTo, before := set m | m in names && !Less(n, m), set m | m in names && Less(m, n);
    forall m ensures m in upTo <==> m in before + {n} {
      LessOnce(m, n);
    }
    assert upTo == before + {n};
    LessOnce(n, n);
  }

  /** Where the directory has not changed, the cursor skips as many names as the offset says. */
  lemma AlignedSkips(s: Scan, names: set<Name>)
    requires ScanInv(s) && Aligned(s, names)
    ensures Skipped(names, s.cursors, s.offset) == Max(s.offset, 2) - 2
  {
    if s.seen != [] {
      RankInSorted(names, |s.seen| - 1);
      UpToMember(names, Sorted(names)[|s.seen| - 1]);
    }
  }

  lemma {:induction false} CallsName(turns: seq<Turn>, names: set<Name>)
    requires Consumable(turns) && forall i :: 0 <= i < |turns| ==> turns[i].reply.names == names
    ensures forall i :: 0 <= i < |CallsOf(turns)| ==> CallsOf(turns)[i].names == names
    decreases |turns|
  {
    if turns != [] {
      CallsName(turns[..|turns| - 1], names);
    }
  }

  lemma StandingSkips(turns: seq<Turn>, names: set<Name>)
    requires IsListing(turns) && forall i :: 0 <= i < |turns| ==> turns[i].reply.names == names
    ensures var s := Standing(turns);
      Skipped(names, s.cursors, s.offset) == Max(s.offset, 2) - 2 && s.offset >= 0
  {
    ListingIsScan(turns);
    CallsName(turns, names);
    UnchangedScan(BEGIN, CallsOf(turns), names);
    AlignedSkips(Standing(turns), names);
  }

  /** On a directory that does not change, the offset of a child is its place in the listing. */
  lemma OffsetsArePlaces(turns: seq<Turn>, last: Turn, names: set<Name>, i: nat)
    requires IsListing(turns) && Continues(Standing(turns), last) && last.reply.names == names
    requires forall j :: 0 <= j < |turns| ==> turns[j].reply.names == names
    requires i < |last.reply.entries| && IsChild(last.reply.entries[i])
    ensures Rank(names, last.reply.entries[i].name) == last.reply.entries[i].offset - 3
  {
    StandingSkips(turns, names);
  }

  /** On a directory that does not change, a call whose cursor is unknown falls back on the numeric offset and returns
      exactly what the call with the cursor would. */
  lemma FallbackAgrees(turns: seq<Turn>, names: set<Name>, known: Reply, unknown: Reply)
    requires IsListing(turns) && forall j :: 0 <= j < |turns| ==> turns[j].reply.names == names
    requires Answers(known) && Answers(unknown) && known.names == unknown.names == names && known.size == unknown.size
    requires known.offset == unknown.offset == Standing(turns).offset > 2
    requires known.before == Standing(turns).cursors && unknown.offset !in unknown.before
    ensures known.entries == unknown.entries
  {
    StandingSkips(turns, names);
    forall i | 0 <= i < |known.entries| ensures known.entries[i] == unknown.entries[i] {
      SameEntry(known, unknown, i);
    }
  }
}
