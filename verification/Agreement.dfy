/** When the two encoders agree, and what their agreement proves about a tree. */
module Agreement {
  import opened Canonical
  import opened Types
  import opened InputTree
  import opened Materialized

  // ----- What the walk lists -----

  predicate IsFileEntry(sha: Sha, t: Tree, at: Path, e: Entry, p: Path, c: Bytes) {
    |p| > 0 && HasFile(t, p, c) && e == FileEntry(sha, at + p, c)
  }

  predicate IsDirEntry(t: Tree, at: Path, e: Entry, p: Path) {
    |p| > 0 && HasDir(t, p) && e == D(Join(at + p))
  }

  lemma {:induction false} LevelFileIsListed(sha: Sha, t: Tree, at: Path, p: Path, c: Bytes)
    requires |p| == 1 && HasFile(t, p, c)
    ensures FileEntry(sha, at + p, c) in LevelFiles(sha, t, at)
    decreases t
  {
    match t {
      case File(n, d, next) => if HasFile(next, p, c) { LevelFileIsListed(sha, next, at, p, c); }
      case Link(_, next) => LevelFileIsListed(sha, next, at, p, c);
      case Sub(_, _, next) => LevelFileIsListed(sha, next, at, p, c);
    }
  }

  lemma {:induction false} DeepFileIsListed(sha: Sha, t: Tree, at: Path, p: Path, c: Bytes)
    requires |p| > 1 && HasFile(t, p, c)
    ensures FileEntry(sha, at + p, c) in DeepFiles(sha, t, at)
    decreases t, 0
  {
    match t {
      case File(_, _, next) => DeepFileIsListed(sha, next, at, p, c);
      case Link(_, next) => DeepFileIsListed(sha, next, at, p, c);
      case Sub(n, child, next) =>
        if HasFile(next, p, c) {
          DeepFileIsListed(sha, next, at, p, c);
        } else {
          FileIsListed(sha, child, at + [n], p[1..], c);
          assert at + [n] + p[1..] == at + p;
        }
    }
  }

  /** Every file of the tree is listed, under its full path. */
  lemma {:induction false} FileIsListed(sha: Sha, t: Tree, at: Path, p: Path, c: Bytes)
    requires |p| > 0 && HasFile(t, p, c)
    ensures FileEntry(sha, at + p, c) in FilesOf(sha, t, at)
    decreases t, 1
  {
    if |p| == 1 { LevelFileIsListed(sha, t, at, p, c); } else { DeepFileIsListed(sha, t, at, p, c); }
  }

  lemma {:induction false} ListedAtLevel(sha: Sha, t: Tree, at: Path, e: Entry) returns (p: Path, c: Bytes)
    requires e in LevelFiles(sha, t, at)
    ensures |p| == 1 && IsFileEntry(sha, t, at, e, p, c)
    decreases t
  {
    match t {
      case File(n, d, next) =>
        if e in LevelFiles(sha, next, at) { p, c := ListedAtLevel(sha, next, at, e); } else { p, c := [n], d; }
      case Link(_, next) => p, c := ListedAtLevel(sha, next, at, e);
      case Sub(_, _, next) => p, c := ListedAtLevel(sha, next, at, e);
    }
  }

  lemma {:induction false} ListedBelow(sha: Sha, t: Tree, at: Path, e: Entry) returns (p: Path, c: Bytes)
    requires e in DeepFiles(sha, t, at)
    ensures |p| > 1 && IsFileEntry(sha, t, at, e, p, c)
    decreases t, 0
  {
    match t {
      case File(_, _, next) => p, c := ListedBelow(sha, next, at, e);
      case Link(_, next) => p, c := ListedBelow(sha, next, at, e);
      case Sub(n, child, next) =>
        if e in DeepFiles(sha, next, at) {
          p, c := ListedBelow(sha, next, at, e);
        } else {
          var q;
          q, c := ListedIsFile(sha, child, at + [n], e);
          p := [n] + q;
          assert p[1..] == q && at + p == at + [n] + q;
        }
    }
  }

  /** Everything listed is a file of the tree. */
  lemma {:induction false} ListedIsFile(sha: Sha, t: Tree, at: Path, e: Entry) returns (p: Path, c: Bytes)
    requires e in FilesOf(sha, t, at)
    ensures IsFileEntry(sha, t, at, e, p, c)
    decreases t, 1
  {
    if e in LevelFiles(sha, t, at) {
      p, c := ListedAtLevel(sha, t, at, e);
    } else {
      p, c := ListedBelow(sha, t, at, e);
    }
  }

  /** Every directory of the tree is listed, under its full path. */
  lemma {:induction false} DirIsListed(t: Tree, at: Path, p: Path)
    requires |p| > 0 && HasDir(t, p)
    ensures D(Join(at + p)) in DirsOf(t, at)
    decreases t
  {
    match t {
      case File(_, _, next) => DirIsListed(next, at, p);
      case Link(_, next) => DirIsListed(next, at, p);
      case Sub(n, child, next) =>
        if HasDir(next, p) {
          DirIsListed(next, at, p);
        } else if |p| > 1 {
          DirIsListed(child, at + [n], p[1..]);
          assert at + [n] + p[1..] == at + p;
        }
    }
  }

  /** Everything listed as a directory is one. */
  lemma {:induction false} ListedIsDir(t: Tree, at: Path, e: Entry) returns (p: Path)
    requires e in DirsOf(t, at)
    ensures IsDirEntry(t, at, e, p)
    decreases t
  {
    match t {
      case File(_, _, next) => p := ListedIsDir(next, at, e);
      case Link(_, next) => p := ListedIsDir(next, at, e);
      case Sub(n, child, next) =>
        if e in DirsOf(next, at) {
          p := ListedIsDir(next, at, e);
        } else if e in DirsOf(child, at + [n]) {
          var q := ListedIsDir(child, at + [n], e);
          p := [n] + q;
          assert p[1..] == q && at + p == at + [n] + q;
        } else {
          p := [n];
        }
    }
  }

  lemma {:induction false} HeldIsNamed(t: Tree, p: Path, c: Bytes)
    requires IsNamed(t) && (HasFile(t, p, c) || HasDir(t, p))
    ensures |p| > 0 && AreNames(p)
    decreases t
  {
    match t {
      case File(n, d, next) => if HasFile(next, p, c) || HasDir(next, p) { HeldIsNamed(next, p, c); }
      case Link(_, next) => HeldIsNamed(next, p, c);
      case Sub(n, child, next) =>
        if HasFile(next, p, c) || HasDir(next, p) {
          HeldIsNamed(next, p, c);
        } else if |p| > 1 {
          HeldIsNamed(child, p[1..], c);
          assert p == [p[0]] + p[1..];
        }
    }
  }

  // ----- No path is listed twice -----

  predicate Within(e: Entry, at: Path, t: Tree) {
    var parts := Split(e.path);
    |parts| > |at| && parts[..|at|] == at && IsTaken(Self, t, parts[|at|])
  }

  function Self(name: Bytes): Bytes { name }

  lemma {:induction false} FirstNameIsTaken(t: Tree, p: Path, c: Bytes)
    requires HasFile(t, p, c) || HasDir(t, p)
    ensures |p| > 0 && IsTaken(Self, t, p[0])
    decreases t
  {
    match t {
      case File(_, _, next) => if HasFile(next, p, c) || HasDir(next, p) { FirstNameIsTaken(next, p, c); }
      case Link(_, next) => FirstNameIsTaken(next, p, c);
      case Sub(_, _, next) => if HasFile(next, p, c) || HasDir(next, p) { FirstNameIsTaken(next, p, c); }
    }
  }

  lemma ListedIsWithin(t: Tree, at: Path, p: Path, c: Bytes, e: Entry)
    requires IsNamed(t) && AreNames(at) && (HasFile(t, p, c) || HasDir(t, p)) && |at + p| > 0 && e.path == Join(at + p)
    ensures Split(e.path) == at + p && Within(e, at, t)
  {
    HeldIsNamed(t, p, c);
    SplitJoin(at + p);
    FirstNameIsTaken(t, p, c);
  }

  lemma FileIsWithin(sha: Sha, t: Tree, at: Path, e: Entry)
    requires IsNamed(t) && AreNames(at) && e in FilesOf(sha, t, at)
    ensures Within(e, at, t)
  {
    var p, c := ListedIsFile(sha, t, at, e);
    ListedIsWithin(t, at, p, c, e);
  }

  lemma DirIsWithin(t: Tree, at: Path, e: Entry)
    requires IsNamed(t) && AreNames(at) && e in DirsOf(t, at)
    ensures Within(e, at, t)
  {
    var p := ListedIsDir(t, at, e);
    ListedIsWithin(t, at, p, [], e);
  }

  lemma LevelAndBelowAreApart(sha: Sha, t: Tree, at: Path, x: Entry, y: Entry)
    requires IsNamed(t) && AreNames(at) && x in LevelFiles(sha, t, at) && y in DeepFiles(sha, t, at)
    ensures x.path != y.path
  {
    var p, c := ListedAtLevel(sha, t, at, x);
    var q, d := ListedBelow(sha, t, at, y);
    ListedIsWithin(t, at, p, c, x);
    ListedIsWithin(t, at, q, d, y);
  }

  ghost predicate AreApart(a: seq<Entry>, b: seq<Entry>) {
    forall x, y | x in a && y in b :: x.path != y.path
  }

  lemma DistinctAppend(a: seq<Entry>, b: seq<Entry>)
    requires HasDistinctPaths(a) && HasDistinctPaths(b) && AreApart(a, b)
    ensures HasDistinctPaths(a + b)
  {
    forall i, j | 0 <= i < j < |a + b| ensures (a + b)[i].path != (a + b)[j].path {
      if i < |a| <= j { assert a[i] in a && b[j - |a|] in b; }
    }
  }

  /** Entries of different names at one level are apart. */
  lemma WithinApart(x: Entry, y: Entry, at: Path, name: Bytes, next: Tree)
    requires !IsTaken(Self, next, name) && Within(y, at, next)
    requires |Split(x.path)| > |at| && Split(x.path)[|at|] == name
    ensures x.path != y.path
  {
    TakenIsByName(next, Split(y.path)[|at|], name);
  }

  lemma TakenIsByName(t: Tree, a: Bytes, b: Bytes)
    requires IsTaken(Self, t, a) && !IsTaken(Self, t, b)
    ensures a != b
  {
  }

  lemma {:induction false} LevelFilesAreDistinct(sha: Sha, t: Tree, at: Path)
    requires IsNamed(t) && AreNames(at) && IsDistinct(Self, t)
    ensures HasDistinctPaths(LevelFiles(sha, t, at))
    decreases t
  {
    match t {
      case Nil =>
      case File(n, c, next) =>
        LevelFilesAreDistinct(sha, next, at);
        var e := FileEntry(sha, at + [n], c);
        SplitJoin(at + [n]);
        forall y | y in LevelFiles(sha, next, at) ensures e.path != y.path {
          FileIsWithin(sha, next, at, y);
          WithinApart(e, y, at, n, next);
        }
        DistinctAppend([e], LevelFiles(sha, next, at));
      case Link(_, next) => LevelFilesAreDistinct(sha, next, at);
      case Sub(_, _, next) => LevelFilesAreDistinct(sha, next, at);
    }
  }

  lemma {:induction false} DeepFilesAreDistinct(sha: Sha, t: Tree, at: Path)
    requires IsNamed(t) && AreNames(at) && IsDistinct(Self, t)
    ensures HasDistinctPaths(DeepFiles(sha, t, at))
    decreases t, 0
  {
    match t {
      case Nil =>
      case File(n, c, next) => DeepFilesAreDistinct(sha, next, at);
      case Link(_, next) => DeepFilesAreDistinct(sha, next, at);
      case Sub(n, child, next) =>
        DeepFilesAreDistinct(sha, next, at);
        FilesAreDistinct(sha, child, at + [n]);
        forall x, y | x in FilesOf(sha, child, at + [n]) && y in DeepFiles(sha, next, at) ensures x.path != y.path {
          FileIsWithin(sha, child, at + [n], x);
          FileIsWithin(sha, next, at, y);
          WithinLonger(x, at, n, child);
          WithinApart(x, y, at, n, next);
        }
        DistinctAppend(FilesOf(sha, child, at + [n]), DeepFiles(sha, next, at));
    }
  }

  lemma WithinLonger(x: Entry, at: Path, name: Bytes, child: Tree)
    requires Within(x, at + [name], child)
    ensures |Split(x.path)| > |at| + 1 && Split(x.path)[|at|] == name
  {
    var parts := Split(x.path);
    assert parts[..|at| + 1][|at|] == name;
  }

  lemma {:induction false} FilesAreDistinct(sha: Sha, t: Tree, at: Path)
    requires IsNamed(t) && AreNames(at) && IsDistinct(Self, t)
    ensures HasDistinctPaths(FilesOf(sha, t, at))
    decreases t, 1
  {
    LevelFilesAreDistinct(sha, t, at);
    DeepFilesAreDistinct(sha, t, at);
    forall x, y | x in LevelFiles(sha, t, at) && y in DeepFiles(sha, t, at) ensures x.path != y.path {
      LevelAndBelowAreApart(sha, t, at, x, y);
    }
    DistinctAppend(LevelFiles(sha, t, at), DeepFiles(sha, t, at));
  }

  lemma {:induction false} DirsAreDistinct(t: Tree, at: Path)
    requires IsNamed(t) && AreNames(at) && IsDistinct(Self, t)
    ensures HasDistinctPaths(DirsOf(t, at))
    decreases t
  {
    match t {
      case Nil =>
      case File(n, c, next) => DirsAreDistinct(next, at);
      case Link(_, next) => DirsAreDistinct(next, at);
      case Sub(n, child, next) =>
        var e, below, rest := D(Join(at + [n])), DirsOf(child, at + [n]), DirsOf(next, at);
        DirsAreDistinct(next, at);
        DirsAreDistinct(child, at + [n]);
        SplitJoin(at + [n]);
        forall x | x in below ensures e.path != x.path {
          DirIsWithin(child, at + [n], x);
          WithinLonger(x, at, n, child);
        }
        DistinctAppend([e], below);
        forall x, y | x in [e] + below && y in rest ensures x.path != y.path {
          DirIsWithin(next, at, y);
          if x in below {
            DirIsWithin(child, at + [n], x);
            WithinLonger(x, at, n, child);
          }
          WithinApart(x, y, at, n, next);
        }
        DistinctAppend([e] + below, rest);
    }
  }

  lemma {:induction false} DistinctUnderAnyFold(fold: Fold, t: Tree)
    requires IsDistinct(fold, t)
    ensures IsDistinct(Self, t)
    decreases t
  {
    match t {
      case Nil =>
      case File(n, _, next) => DistinctUnderAnyFold(fold, next); TakenUnderAnyFold(fold, next, n);
      case Link(n, next) => DistinctUnderAnyFold(fold, next); TakenUnderAnyFold(fold, next, n);
      case Sub(n, child, next) =>
        DistinctUnderAnyFold(fold, next);
        DistinctUnderAnyFold(fold, child);
        TakenUnderAnyFold(fold, next, n);
    }
  }

  lemma {:induction false} TakenUnderAnyFold(fold: Fold, t: Tree, name: Bytes)
    ensures IsTaken(Self, t, name) ==> IsTaken(fold, t, name)
    decreases t
  {
    match t {
      case Nil =>
      case File(_, _, next) => TakenUnderAnyFold(fold, next, name);
      case Link(_, next) => TakenUnderAnyFold(fold, next, name);
      case Sub(_, _, next) => TakenUnderAnyFold(fold, next, name);
    }
  }

  // ----- What the bindings list -----

  lemma InsertNewDir(e: Entry, s: seq<Entry>, x: Entry)
    requires IsSorted(s) && AreDirs(s) && e.D?
    ensures x in InsertNew(e, s) <==> x in s || x == e
    ensures IsSorted(InsertNew(e, s))
  {
    InsertNewMembers(e, s, x);
    InsertNewSorted(e, s);
    if i :| 0 <= i < |s| && s[i].path == e.path { assert s[i] == e; }
  }

  lemma {:induction false} InsertNewKeepsDirs(e: Entry, s: seq<Entry>)
    requires AreDirs(s) && e.D?
    ensures AreDirs(InsertNew(e, s))
  {
    if s != [] && e.path != s[0].path && !Less(e.path, s[0].path) { InsertNewKeepsDirs(e, s[1..]); }
  }

  /** The inner loop adds exactly the proper prefixes shorter than k. */
  lemma {:induction false} WithParentsMembers(dirs: seq<Entry>, parts: Path, k: nat, x: Entry)
    requires 1 <= k <= |parts| && IsSorted(dirs) && AreDirs(dirs)
    ensures IsSorted(WithParents(dirs, parts, k)) && AreDirs(WithParents(dirs, parts, k))
    ensures x in WithParents(dirs, parts, k) <==> x in dirs || exists m :: 0 < m < k && x == ParentEntry(parts, m)
    decreases k
  {
    if k > 1 {
      WithParentsMembers(dirs, parts, k - 1, x);
      InsertNewDir(ParentEntry(parts, k - 1), WithParents(dirs, parts, k - 1), x);
      InsertNewKeepsDirs(ParentEntry(parts, k - 1), WithParents(dirs, parts, k - 1));
      assert (exists m :: 0 < m < k && x == ParentEntry(parts, m)) <==>
             (exists m :: 0 < m < k - 1 && x == ParentEntry(parts, m)) || x == ParentEntry(parts, k - 1);
    }
  }

  predicate IsParentEntry(file: Entry, m: int, x: Entry) {
    0 < m < |Split(file.path)| && x == ParentEntry(Split(file.path), m)
  }

  lemma {:induction false} ParentsOfMembers(files: seq<Entry>, x: Entry)
    ensures IsSorted(ParentsOf(files)) && AreDirs(ParentsOf(files))
    ensures x in ParentsOf(files) <==> exists f, m :: f in files && IsParentEntry(f, m, x)
  {
    if files != [] {
      var init, last := files[..|files| - 1], files[|files| - 1];
      var parts := Split(last.path);
      assert files == init + [last];
      ParentsOfMembers(init, x);
      WithParentsMembers(ParentsOf(init), parts, |parts|, x);
      if m :| 0 < m < |parts| && x == ParentEntry(parts, m) { assert last in files && IsParentEntry(last, m, x); }
      if f, m :| f in files && IsParentEntry(f, m, x) {
        assert f in init || f == last;
      }
    }
  }

  // ----- The two encoders -----

  /** Each stored object is the one whose digest and length were committed. */
  predicate AreHonest(sha: Sha, bs: seq<Binding>) {
    forall i | 0 <= i < |bs| :: bs[i].digest == sha(bs[i].stored) && bs[i].byteLength == |bs[i].stored|
  }

  lemma BindingFilesAreDistinct(fold: Fold, bs: seq<Binding>)
    requires IsAccepted(fold, bs)
    ensures HasDistinctPaths(BindingFiles(bs))
  {
    var files := BindingFiles(bs);
    forall i, j | 0 <= i < j < |files| ensures files[i].path != files[j].path {
      FoldReflexive(fold, PathOf(bs[i]));
      assert !Overlap(fold, PathOf(bs[i]), PathOf(bs[j]));
    }
  }

  ghost predicate SameMembers(a: seq<Entry>, b: seq<Entry>) {
    forall e :: e in a <==> e in b
  }

  lemma BindingOf(bs: seq<Binding>, e: Entry) returns (i: nat)
    requires e in Sort(BindingFiles(bs))
    ensures i < |bs| && e == BindingEntry(bs[i])
  {
    SortMembers(BindingFiles(bs), e);
    i :| 0 <= i < |bs| && BindingFiles(bs)[i] == e;
  }

  lemma BindingIsListed(bs: seq<Binding>, i: nat)
    requires i < |bs|
    ensures BindingEntry(bs[i]) in Sort(BindingFiles(bs))
  {
    assert BindingFiles(bs)[i] == BindingEntry(bs[i]);
    SortMembers(BindingFiles(bs), BindingEntry(bs[i]));
  }

  /** A tree that holds exactly the bindings lists exactly the bindings' files. */
  lemma SameFiles(sha: Sha, t: Tree, bs: seq<Binding>)
    requires HoldsExactly(t, bs) && AreHonest(sha, bs)
    ensures SameMembers(FilesOf(sha, t, []), Sort(BindingFiles(bs)))
  {
    forall e ensures e in FilesOf(sha, t, []) <==> e in Sort(BindingFiles(bs)) {
      if e in FilesOf(sha, t, []) {
        var p, c := ListedIsFile(sha, t, [], e);
        assert [] + p == p && Committed(bs, p, c);
        var i :| 0 <= i < |bs| && PathOf(bs[i]) == p && bs[i].stored == c;
        JoinSplit(bs[i].path);
        BindingIsListed(bs, i);
      }
      if e in Sort(BindingFiles(bs)) {
        var i := BindingOf(bs, e);
        var p := PathOf(bs[i]);
        JoinSplit(bs[i].path);
        assert [] + p == p && Committed(bs, p, bs[i].stored);
        FileIsListed(sha, t, [], p, bs[i].stored);
      }
    }
  }

  lemma SameDirs(t: Tree, bs: seq<Binding>)
    requires HoldsExactly(t, bs)
    ensures SameMembers(DirsOf(t, []), ParentsOf(Sort(BindingFiles(bs))))
  {
    var ordered := Sort(BindingFiles(bs));
    forall e ensures e in DirsOf(t, []) <==> e in ParentsOf(ordered) {
      ParentsOfMembers(ordered, e);
      if e in DirsOf(t, []) {
        var p := ListedIsDir(t, [], e);
        assert [] + p == p && CommittedParent(bs, p);
        var i :| 0 <= i < |bs| && IsParent(p, PathOf(bs[i]));
        BindingIsListed(bs, i);
        assert p == PathOf(bs[i])[..|p|];
        assert IsParentEntry(BindingEntry(bs[i]), |p|, e);
      }
      if e in ParentsOf(ordered) {
        var f, m :| f in ordered && IsParentEntry(f, m, e);
        var i := BindingOf(bs, f);
        var p := PathOf(bs[i])[..m];
        assert IsParent(p, PathOf(bs[i])) && CommittedParent(bs, p);
        assert [] + p == p;
        DirIsListed(t, [], p);
      }
    }
  }

  lemma SortKeepsMembers(s: seq<Entry>, r: seq<Entry>)
    requires SameMembers(s, r)
    ensures SameMembers(Sort(s), r)
  {
    forall e ensures e in Sort(s) <==> e in r { SortMembers(s, e); }
  }

  /** A tree that holds exactly the bindings has their canonical bytes. */
  lemma ExactTreeHasTheBytes(fold: Fold, sha: Sha, t: Tree, bs: seq<Binding>)
    requires IsAccepted(fold, bs) && AreHonest(sha, bs) && IsClean(fold, t) && HoldsExactly(t, bs)
    ensures TreeBytes(sha, t) == Some(BindingBytes(bs))
  {
    var ordered := Sort(BindingFiles(bs));
    DistinctUnderAnyFold(fold, t);
    FilesAreDistinct(sha, t, []);
    DirsAreDistinct(t, []);
    SortIsSorted(FilesOf(sha, t, []));
    SortIsSorted(DirsOf(t, []));
    BindingFilesAreDistinct(fold, bs);
    SortIsSorted(BindingFiles(bs));
    SameFiles(sha, t, bs);
    SameDirs(t, bs);
    SortKeepsMembers(FilesOf(sha, t, []), ordered);
    SortKeepsMembers(DirsOf(t, []), ParentsOf(ordered));
    ParentsOfMembers(ordered, D([]));
    SortedIsUnique(Sort(FilesOf(sha, t, [])), ordered);
    SortedIsUnique(Sort(DirsOf(t, [])), ParentsOf(ordered));
  }

  // ----- What equal bytes prove -----

  /** Digests are NUL-free texts and, taken as injective, name one content. */
  ghost predicate IsInjectiveDigest(sha: Sha) {
    && (forall c :: 0 !in sha(c))
    && (forall c, d :: sha(c) == sha(d) ==> c == d)
  }

  lemma TreeEntriesAreNulFree(sha: Sha, t: Tree)
    requires IsNamed(t) && forall c :: 0 !in sha(c)
    ensures AreNulFree(Sort(DirsOf(t, [])) + Sort(FilesOf(sha, t, [])))
    ensures AreDirs(Sort(DirsOf(t, []))) && AreFiles(Sort(FilesOf(sha, t, [])))
  {
    var dirs, files := Sort(DirsOf(t, [])), Sort(FilesOf(sha, t, []));
    forall i | 0 <= i < |dirs| ensures dirs[i].D? && IsNulFree(dirs[i]) {
      assert dirs[i] in dirs;
      SortMembers(DirsOf(t, []), dirs[i]);
      var p := ListedIsDir(t, [], dirs[i]);
      HeldIsNamed(t, p, []);
      assert [] + p == p;
      JoinIsNulFree(p);
    }
    forall i | 0 <= i < |files| ensures files[i].F? && IsNulFree(files[i]) {
      assert files[i] in files;
      SortMembers(FilesOf(sha, t, []), files[i]);
      var p, c := ListedIsFile(sha, t, [], files[i]);
      HeldIsNamed(t, p, c);
      assert [] + p == p;
      JoinIsNulFree(p);
    }
  }

  lemma BindingEntriesAreNulFree(sha: Sha, bs: seq<Binding>)
    requires AreHonest(sha, bs) && (forall c :: 0 !in sha(c)) && forall i | 0 <= i < |bs| :: 0 !in bs[i].path
    ensures var ordered := Sort(BindingFiles(bs));
      AreNulFree(ParentsOf(ordered) + ordered) && AreDirs(ParentsOf(ordered)) && AreFiles(ordered)
  {
    var ordered := Sort(BindingFiles(bs));
    var dirs := ParentsOf(ordered);
    forall i | 0 <= i < |ordered| ensures ordered[i].F? && IsNulFree(ordered[i]) {
      assert ordered[i] in ordered;
      var k := BindingOf(bs, ordered[i]);
    }
    forall i | 0 <= i < |dirs| ensures dirs[i].D? && IsNulFree(dirs[i]) {
      assert dirs[i] in dirs;
      ParentsOfMembers(ordered, dirs[i]);
      var f, m :| f in ordered && IsParentEntry(f, m, dirs[i]);
      var k := BindingOf(bs, f);
      SplitNames(bs[k].path);
      JoinIsNulFree(PathOf(bs[k])[..m]);
    }
  }

  /** Equal canonical bytes mean equal lists. */
  lemma EqualBytesEqualLists(sha: Sha, t: Tree, bs: seq<Binding>)
    requires IsNamed(t) && AreHonest(sha, bs) && forall c :: 0 !in sha(c)
    requires forall i | 0 <= i < |bs| :: 0 !in bs[i].path
    requires TreeBytes(sha, t) == Some(BindingBytes(bs))
    ensures !HasLink(t)
    ensures SameMembers(FilesOf(sha, t, []), Sort(BindingFiles(bs)))
    ensures SameMembers(DirsOf(t, []), ParentsOf(Sort(BindingFiles(bs))))
  {
    var ordered := Sort(BindingFiles(bs));
    TreeEntriesAreNulFree(sha, t);
    BindingEntriesAreNulFree(sha, bs);
    EncodeIsInjective(Sort(DirsOf(t, [])), Sort(FilesOf(sha, t, [])), ParentsOf(ordered), ordered);
    forall e ensures e in Sort(FilesOf(sha, t, [])) <==> e in FilesOf(sha, t, []) {
      SortMembers(FilesOf(sha, t, []), e);
    }
    forall e ensures e in Sort(DirsOf(t, [])) <==> e in DirsOf(t, []) { SortMembers(DirsOf(t, []), e); }
  }

  lemma HeldFileIsCommitted(sha: Sha, t: Tree, bs: seq<Binding>, p: Path, c: Bytes)
    requires IsNamed(t) && AreHonest(sha, bs) && IsInjectiveDigest(sha) && forall i | 0 <= i < |bs| :: 0 !in bs[i].path
    requires SameMembers(FilesOf(sha, t, []), Sort(BindingFiles(bs)))
    ensures HasFile(t, p, c) <==> Committed(bs, p, c)
  {
    if HasFile(t, p, c) {
      HeldIsNamed(t, p, c);
      FileIsListed(sha, t, [], p, c);
      assert [] + p == p;
      var i := BindingOf(bs, FileEntry(sha, p, c));
      SplitJoin(p);
      assert PathOf(bs[i]) == p && bs[i].stored == c;
    }
    if Committed(bs, p, c) {
      var i :| 0 <= i < |bs| && PathOf(bs[i]) == p && bs[i].stored == c;
      BindingIsListed(bs, i);
      var q, d := ListedIsFile(sha, t, [], BindingEntry(bs[i]));
      HeldIsNamed(t, q, d);
      assert [] + q == q;
      SplitJoin(q);
    }
  }

  lemma HeldDirIsCommitted(t: Tree, bs: seq<Binding>, p: Path)
    requires IsNamed(t) && forall i | 0 <= i < |bs| :: 0 !in bs[i].path
    requires SameMembers(DirsOf(t, []), ParentsOf(Sort(BindingFiles(bs))))
    ensures HasDir(t, p) <==> CommittedParent(bs, p)
  {
    var ordered := Sort(BindingFiles(bs));
    if HasDir(t, p) {
      HeldIsNamed(t, p, []);
      DirIsListed(t, [], p);
      assert [] + p == p;
      ParentsOfMembers(ordered, D(Join(p)));
      var f, m :| f in ordered && IsParentEntry(f, m, D(Join(p)));
      var i := BindingOf(bs, f);
      SplitNames(bs[i].path);
      JoinIsInjective(p, PathOf(bs[i])[..m]);
      assert IsParent(p, PathOf(bs[i]));
    }
    if CommittedParent(bs, p) {
      var i :| 0 <= i < |bs| && IsParent(p, PathOf(bs[i]));
      SplitNames(bs[i].path);
      BindingIsListed(bs, i);
      assert p == PathOf(bs[i])[..|p|];
      assert IsParentEntry(BindingEntry(bs[i]), |p|, D(Join(p)));
      ParentsOfMembers(ordered, D(Join(p)));
      var q := ListedIsDir(t, [], D(Join(p)));
      HeldIsNamed(t, q, []);
      assert [] + q == q;
      JoinIsInjective(p, q);
    }
  }

  /** With the digest taken as injective, any tree whatever with the committed bytes is exactly the committed one. */
  lemma EqualBytesMeanTheCommittedTree(sha: Sha, t: Tree, bs: seq<Binding>)
    requires IsNamed(t) && AreHonest(sha, bs) && IsInjectiveDigest(sha) && forall i | 0 <= i < |bs| :: 0 !in bs[i].path
    requires TreeBytes(sha, t) == Some(BindingBytes(bs))
    ensures !HasLink(t) && HoldsExactly(t, bs)
  {
    EqualBytesEqualLists(sha, t, bs);
    forall q, c ensures HasFile(t, q, c) <==> Committed(bs, q, c) { HeldFileIsCommitted(sha, t, bs, q, c); }
    forall q ensures HasDir(t, q) <==> CommittedParent(bs, q) { HeldDirIsCommitted(t, bs, q); }
  }

  /** The two encoders agree on every accepted list, in any order, and the tree it builds, if and only if
      no two of its directories differ in name and yet are one directory to the file system. */
  lemma EncodersAgreeExactlyWithoutAliases(fold: Fold, sha: Sha, bs: seq<Binding>)
    requires IsAccepted(fold, bs) && AreHonest(sha, bs) && forall c :: 0 !in sha(c)
    ensures Build(fold, bs).Some?
    ensures TreeBytes(sha, Build(fold, bs).value) == Some(BindingBytes(bs)) <==> HasNoAliases(fold, bs)
  {
    AcceptedBuilds(fold, bs);
    var t := Build(fold, bs).value;
    if HasNoAliases(fold, bs) {
      BuildHoldsExactly(fold, bs);
      ExactTreeHasTheBytes(fold, sha, t, bs);
    } else {
      AliasesAreLost(fold, t, bs);
      var q :| CommittedParent(bs, q) && !HasDir(t, q);
      if TreeBytes(sha, t) == Some(BindingBytes(bs)) {
        EqualBytesEqualLists(sha, t, bs);
        HeldDirIsCommitted(t, bs, q);
      }
    }
  }

  /** Where only equal names are equivalent, no list has aliases: the encoders always agree. */
  lemma EncodersAgreeOnCaseSensitiveNames(sha: Sha, bs: seq<Binding>)
    requires IsAccepted(Self, bs) && AreHonest(sha, bs) && forall c :: 0 !in sha(c)
    ensures Build(Self, bs).Some? && TreeBytes(sha, Build(Self, bs).value) == Some(BindingBytes(bs))
  {
    forall i, j, k | 0 <= i < |bs| && 0 <= j < |bs| && 0 < k < |PathOf(bs[i])| && k < |PathOf(bs[j])|
      && SameFold(Self, PathOf(bs[i])[..k], PathOf(bs[j])[..k])
      ensures PathOf(bs[i])[..k] == PathOf(bs[j])[..k]
    {
      SelfFoldIsEquality(PathOf(bs[i])[..k], PathOf(bs[j])[..k]);
    }
    EncodersAgreeExactlyWithoutAliases(Self, sha, bs);
  }

  lemma {:induction false} SelfFoldIsEquality(a: Path, b: Path)
    requires SameFold(Self, a, b)
    ensures a == b
    decreases |a|
  {
    if a != [] {
      SelfFoldIsEquality(a[1..], b[1..]);
      assert a == [a[0]] + a[1..] && b == [b[0]] + b[1..];
    }
  }
}
