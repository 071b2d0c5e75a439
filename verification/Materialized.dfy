/** The tree that a list of bindings builds on a file system, and what it then holds. */
module Materialized {
  import opened Canonical
  import opened Types
  import opened InputTree

  // ----- Comparing component lists the way a file system does -----

  predicate FoldPrefix(fold: Fold, a: Path, b: Path) {
    a == [] || (b != [] && fold(a[0]) == fold(b[0]) && FoldPrefix(fold, a[1..], b[1..]))
  }

  predicate SameFold(fold: Fold, a: Path, b: Path) {
    |a| == |b| && FoldPrefix(fold, a, b)
  }

  lemma {:induction false} FoldPrefixIsShorter(fold: Fold, a: Path, b: Path)
    ensures FoldPrefix(fold, a, b) ==> |a| <= |b|
    decreases |a|
  {
    if a != [] && b != [] { FoldPrefixIsShorter(fold, a[1..], b[1..]); }
  }

  lemma {:induction false} FoldPrefixOfCut(fold: Fold, a: Path, b: Path, k: nat)
    requires |a| <= k <= |b|
    ensures FoldPrefix(fold, a, b[..k]) <==> FoldPrefix(fold, a, b)
    decreases |a|
  {
    if a != [] {
      assert b[..k][1..] == b[1..][..k - 1];
      FoldPrefixOfCut(fold, a[1..], b[1..], k - 1);
    }
  }

  /** Two lists that are both equivalent to the start of a third. */
  lemma {:induction false} FoldEuclid(fold: Fold, q: Path, p: Path, r: Path)
    requires SameFold(fold, q, p) && FoldPrefix(fold, q, r)
    ensures FoldPrefix(fold, p, r)
    decreases |q|
  {
    if q != [] { FoldEuclid(fold, q[1..], p[1..], r[1..]); }
  }

  lemma {:induction false} FoldReflexive(fold: Fold, a: Path)
    ensures SameFold(fold, a, a)
  {
    if a != [] { FoldReflexive(fold, a[1..]); }
  }

  // ----- Creating one file, with the directories on the way -----

  /** A chain of new directories down to the file. */
  function Chain(p: Path, content: Bytes): Tree
    requires |p| > 0
  {
    if |p| == 1 then File(p[0], content, Nil) else Sub(p[0], Chain(p[1..], content), Nil)
  }

  /** The tree after the file is created at the path, or None when an entry is in the way. */
  function Create(fold: Fold, t: Tree, p: Path, content: Bytes): Option<Tree>
    requires |p| > 0
  {
    match t
    case Nil => Some(Chain(p, content))
    case File(n, c, next) =>
      if fold(n) == fold(p[0]) then None
      else (match Create(fold, next, p, content) case None => None case Some(u) => Some(File(n, c, u)))
    case Link(n, next) =>
      if fold(n) == fold(p[0]) then None
      else (match Create(fold, next, p, content) case None => None case Some(u) => Some(Link(n, u)))
    case Sub(n, child, next) =>
      if fold(n) != fold(p[0]) then
        (match Create(fold, next, p, content) case None => None case Some(u) => Some(Sub(n, child, u)))
      else if |p| == 1 then None
      else
        (match Create(fold, child, p[1..], content) case None => None case Some(u) => Some(Sub(n, u, next)))
  }

  /** Where the file really lands: existing directories keep the names they were created with. */
  function Landing(fold: Fold, t: Tree, p: Path): (q: Path)
    requires |p| > 0
    ensures |q| == |p|
  {
    match t
    case Nil => p
    case File(_, _, next) => Landing(fold, next, p)
    case Link(_, next) => Landing(fold, next, p)
    case Sub(n, child, next) =>
      if fold(n) == fold(p[0]) && |p| > 1 then [n] + Landing(fold, child, p[1..]) else Landing(fold, next, p)
  }

  predicate IsParent(q: Path, p: Path) {
    0 < |q| < |p| && q <= p
  }

  lemma {:induction false} ChainHolds(p: Path, content: Bytes, q: Path, c: Bytes)
    requires |p| > 0
    ensures HasFile(Chain(p, content), q, c) <==> q == p && c == content
    ensures HasDir(Chain(p, content), q) <==> IsParent(q, p)
    decreases |p|
  {
    if |p| == 1 {
      assert p == [p[0]];
    } else if |q| > 0 {
      ChainHolds(p[1..], content, q[1..], c);
      assert p == [p[0]] + p[1..] && q == [q[0]] + q[1..];
      ParentTail(q, p);
    }
  }

  lemma ParentTail(q: Path, p: Path)
    requires |q| > 0 && |p| > 1
    ensures IsParent(q, p) <==> q[0] == p[0] && (|q| == 1 || IsParent(q[1..], p[1..]))
  {
    assert p == [p[0]] + p[1..] && q == [q[0]] + q[1..];
  }

  lemma {:induction false} CreateAddsTheFile(fold: Fold, t: Tree, p: Path, content: Bytes, q: Path, c: Bytes)
    requires |p| > 0 && Create(fold, t, p, content).Some?
    ensures HasFile(Create(fold, t, p, content).value, q, c) <==>
            HasFile(t, q, c) || (q == Landing(fold, t, p) && c == content)
    decreases t
  {
    match t {
      case Nil => ChainHolds(p, content, q, c);
      case File(n, _, next) => CreateAddsTheFile(fold, next, p, content, q, c);
      case Link(n, next) => CreateAddsTheFile(fold, next, p, content, q, c);
      case Sub(n, child, next) =>
        if fold(n) != fold(p[0]) {
          CreateAddsTheFile(fold, next, p, content, q, c);
        } else if |q| > 1 {
          CreateAddsTheFile(fold, child, p[1..], content, q[1..], c);
          assert q == [q[0]] + q[1..];
        }
    }
  }

  lemma {:induction false} CreateAddsTheParents(fold: Fold, t: Tree, p: Path, content: Bytes, q: Path)
    requires |p| > 0 && Create(fold, t, p, content).Some?
    ensures HasDir(Create(fold, t, p, content).value, q) <==> HasDir(t, q) || IsParent(q, Landing(fold, t, p))
    decreases t
  {
    match t {
      case Nil => ChainHolds(p, content, q, []);
      case File(n, _, next) => CreateAddsTheParents(fold, next, p, content, q);
      case Link(n, next) => CreateAddsTheParents(fold, next, p, content, q);
      case Sub(n, child, next) =>
        if fold(n) != fold(p[0]) {
          CreateAddsTheParents(fold, next, p, content, q);
        } else if |q| > 0 {
          CreateAddsTheParents(fold, child, p[1..], content, q[1..]);
          assert q == [q[0]] + q[1..];
          ParentTail(q, Landing(fold, t, p));
          assert Landing(fold, t, p)[1..] == Landing(fold, child, p[1..]);
        }
    }
  }

  lemma {:induction false} CreateTakesTheName(fold: Fold, t: Tree, p: Path, content: Bytes, name: Bytes)
    requires |p| > 0 && Create(fold, t, p, content).Some?
    ensures IsTaken(fold, Create(fold, t, p, content).value, name) <==>
      IsTaken(fold, t, name) || fold(p[0]) == fold(name)
    decreases t
  {
    match t {
      case Nil =>
      case File(_, _, next) => CreateTakesTheName(fold, next, p, content, name);
      case Link(_, next) => CreateTakesTheName(fold, next, p, content, name);
      case Sub(n, child, next) =>
        if fold(n) != fold(p[0]) { CreateTakesTheName(fold, next, p, content, name); }
    }
  }

  lemma {:induction false} ChainIsClean(fold: Fold, p: Path, content: Bytes)
    requires |p| > 0 && AreNames(p)
    ensures IsDistinct(fold, Chain(p, content)) && IsNamed(Chain(p, content)) && !HasLink(Chain(p, content))
    decreases |p|
  {
    if |p| > 1 { ChainIsClean(fold, p[1..], content); }
  }

  predicate IsClean(fold: Fold, t: Tree) {
    IsDistinct(fold, t) && IsNamed(t) && !HasLink(t)
  }

  lemma {:induction false} CreateKeepsClean(fold: Fold, t: Tree, p: Path, content: Bytes)
    requires |p| > 0 && AreNames(p) && IsClean(fold, t) && Create(fold, t, p, content).Some?
    ensures IsClean(fold, Create(fold, t, p, content).value)
    decreases t
  {
    match t {
      case Nil => ChainIsClean(fold, p, content);
      case File(n, _, next) =>
        CreateKeepsClean(fold, next, p, content);
        CreateTakesTheName(fold, next, p, content, n);
      case Sub(n, child, next) =>
        if fold(n) != fold(p[0]) {
          CreateKeepsClean(fold, next, p, content);
          CreateTakesTheName(fold, next, p, content, n);
        } else {
          CreateKeepsClean(fold, child, p[1..], content);
        }
    }
  }

  lemma {:induction false} LandingIsEquivalent(fold: Fold, t: Tree, p: Path)
    requires |p| > 0
    ensures SameFold(fold, Landing(fold, t, p), p)
    decreases t
  {
    match t {
      case Nil => FoldReflexive(fold, p);
      case File(_, _, next) => LandingIsEquivalent(fold, next, p);
      case Link(_, next) => LandingIsEquivalent(fold, next, p);
      case Sub(n, child, next) =>
        if fold(n) == fold(p[0]) && |p| > 1 {
          LandingIsEquivalent(fold, child, p[1..]);
          assert Landing(fold, t, p)[1..] == Landing(fold, child, p[1..]);
        } else {
          LandingIsEquivalent(fold, next, p);
        }
    }
  }

  /** A file lands where it was asked to when every equivalent directory on the way has the very name asked for. */
  lemma {:induction false} LandingIsExact(fold: Fold, t: Tree, p: Path)
    requires |p| > 0
    requires forall q | HasDir(t, q) && 0 < |q| < |p| && FoldPrefix(fold, q, p) :: q <= p
    ensures Landing(fold, t, p) == p
    decreases t
  {
    match t {
      case Nil =>
      case File(_, _, next) => LandingIsExact(fold, next, p);
      case Link(_, next) => LandingIsExact(fold, next, p);
      case Sub(n, child, next) =>
        if fold(n) == fold(p[0]) && |p| > 1 {
          assert HasDir(t, [n]) && [n][1..] == [] && FoldPrefix(fold, [n], p);
          forall q | HasDir(child, q) && 0 < |q| < |p| - 1 && FoldPrefix(fold, q, p[1..]) ensures q <= p[1..] {
            var longer := [n] + q;
            assert longer[1..] == q && HasDir(t, longer) && FoldPrefix(fold, longer, p);
            assert longer <= p;
            assert q == longer[1..];
          }
          LandingIsExact(fold, child, p[1..]);
          assert p == [n] + p[1..];
        } else {
          LandingIsExact(fold, next, p);
        }
    }
  }

  lemma {:induction false} HeldIsNonEmpty(t: Tree, q: Path, c: Bytes)
    ensures HasFile(t, q, c) ==> |q| > 0
    ensures HasDir(t, q) ==> |q| > 0
    decreases t
  {
    match t {
      case Nil =>
      case File(_, _, next) => HeldIsNonEmpty(next, q, c);
      case Link(_, next) => HeldIsNonEmpty(next, q, c);
      case Sub(_, _, next) => HeldIsNonEmpty(next, q, c);
    }
  }

  /** Something in the way: a file where the path starts, or a directory where the file should go. */
  ghost predicate Blocks(fold: Fold, t: Tree, p: Path, q: Path) {
    (FoldPrefix(fold, q, p) && exists c :: HasFile(t, q, c)) || (SameFold(fold, q, p) && HasDir(t, q))
  }

  lemma BlockedFurtherOn(fold: Fold, t: Tree, next: Tree, p: Path, q: Path)
    requires (t.File? || t.Sub? || t.Link?) && t.next == next && Blocks(fold, next, p, q)
    ensures Blocks(fold, t, p, q)
  {
    if c :| FoldPrefix(fold, q, p) && HasFile(next, q, c) { assert HasFile(t, q, c); }
  }

  lemma BlockedBelow(fold: Fold, t: Tree, p: Path, q: Path)
    requires t.Sub? && |p| > 1 && fold(t.name) == fold(p[0]) && Blocks(fold, t.child, p[1..], q)
    ensures Blocks(fold, t, p, [t.name] + q)
  {
    var longer := [t.name] + q;
    assert longer[1..] == q;
    HeldIsNonEmpty(t.child, q, []);
    if c :| FoldPrefix(fold, q, p[1..]) && HasFile(t.child, q, c) {
      HeldIsNonEmpty(t.child, q, c);
      assert HasFile(t, longer, c);
    }
  }

  lemma {:induction false} RefusalHasACause(fold: Fold, t: Tree, p: Path, content: Bytes) returns (q: Path)
    requires |p| > 0 && !HasLink(t) && Create(fold, t, p, content).None?
    ensures Blocks(fold, t, p, q)
    decreases t
  {
    if fold(t.name) != fold(p[0]) {
      q := RefusalHasACause(fold, t.next, p, content);
      BlockedFurtherOn(fold, t, t.next, p, q);
    } else if t.File? || |p| == 1 {
      q := [t.name];
      assert q[1..] == [] && FoldPrefix(fold, q, p);
      assert t.Sub? ==> HasDir(t, q);
      assert t.File? ==> HasFile(t, q, t.content);
    } else {
      q := RefusalHasACause(fold, t.child, p[1..], content);
      BlockedBelow(fold, t, p, q);
      q := [t.name] + q;
    }
  }

  lemma {:induction false} TakenByADirectory(fold: Fold, t: Tree, q: Path)
    requires HasDir(t, q)
    ensures |q| > 0 && IsTaken(fold, t, q[0])
    decreases t
  {
    match t {
      case File(_, _, next) => TakenByADirectory(fold, next, q);
      case Link(_, next) => TakenByADirectory(fold, next, q);
      case Sub(n, child, next) =>
        if HasDir(next, q) { TakenByADirectory(fold, next, q); }
    }
  }

  lemma {:induction false} TakenByName(fold: Fold, t: Tree, a: Bytes, b: Bytes)
    requires fold(a) == fold(b)
    ensures IsTaken(fold, t, a) == IsTaken(fold, t, b)
    decreases t
  {
    match t {
      case Nil =>
      case File(_, _, next) => TakenByName(fold, next, a, b);
      case Link(_, next) => TakenByName(fold, next, a, b);
      case Sub(_, _, next) => TakenByName(fold, next, a, b);
    }
  }

  lemma HeldBelowAnotherName(fold: Fold, name: Bytes, t: Tree, q: Path)
    requires !IsTaken(fold, t, name) && HasDir(t, q)
    ensures |q| > 0 && fold(name) != fold(q[0])
  {
    TakenByADirectory(fold, t, q);
    if fold(name) == fold(q[0]) { TakenByName(fold, t, name, q[0]); }
  }

  /** In a tree without equivalent names, equivalent directories are the same directory. */
  lemma {:induction false} EquivalentDirectoriesAreOne(fold: Fold, t: Tree, a: Path, b: Path)
    requires IsDistinct(fold, t) && HasDir(t, a) && HasDir(t, b) && SameFold(fold, a, b)
    ensures a == b
    decreases t
  {
    match t {
      case File(_, _, next) => EquivalentDirectoriesAreOne(fold, next, a, b);
      case Link(_, next) => EquivalentDirectoriesAreOne(fold, next, a, b);
      case Sub(n, child, next) =>
        if HasDir(next, a) { HeldBelowAnotherName(fold, n, next, a); }
        if HasDir(next, b) { HeldBelowAnotherName(fold, n, next, b); }
        if HasDir(next, a) && HasDir(next, b) {
          EquivalentDirectoriesAreOne(fold, next, a, b);
        } else if |a| > 1 && HasDir(child, a[1..]) && HasDir(child, b[1..]) {
          EquivalentDirectoriesAreOne(fold, child, a[1..], b[1..]);
          assert a == [a[0]] + a[1..] && b == [b[0]] + b[1..];
        }
    }
  }

  // ----- Building the whole list -----

  function PathOf(b: Binding): (p: Path)
    ensures |p| > 0
  {
    Split(b.path)
  }

  /** Creates the bindings' files one after the other on an empty directory. */
  function Build(fold: Fold, bs: seq<Binding>): Option<Tree> {
    if bs == [] then Some(Nil)
    else match Build(fold, bs[..|bs| - 1])
      case None => None
      case Some(t) => Create(fold, t, PathOf(bs[|bs| - 1]), bs[|bs| - 1].stored)
  }

  predicate Overlap(fold: Fold, a: Path, b: Path) {
    FoldPrefix(fold, a, b) || FoldPrefix(fold, b, a)
  }

  /** Every path is NUL-free and no path starts with another one, up to equivalence. */
  predicate IsAccepted(fold: Fold, bs: seq<Binding>) {
    && (forall i | 0 <= i < |bs| :: 0 !in bs[i].path)
    && (forall i, j | 0 <= i < j < |bs| :: !Overlap(fold, PathOf(bs[i]), PathOf(bs[j])))
  }

  predicate Committed(bs: seq<Binding>, q: Path, c: Bytes) {
    exists i :: 0 <= i < |bs| && PathOf(bs[i]) == q && bs[i].stored == c
  }

  predicate CommittedParent(bs: seq<Binding>, q: Path) {
    exists i :: 0 <= i < |bs| && IsParent(q, PathOf(bs[i]))
  }

  /** What the tree holds comes from the bindings, up to the names of directories. */
  ghost predicate Follows(fold: Fold, t: Tree, bs: seq<Binding>) {
    && IsClean(fold, t)
    && (forall q, c | HasFile(t, q, c) :: exists i :: 0 <= i < |bs| && SameFold(fold, q, PathOf(bs[i])))
    && (forall q | HasDir(t, q) ::
          exists i :: 0 <= i < |bs| && |q| < |PathOf(bs[i])| && FoldPrefix(fold, q, PathOf(bs[i])))
  }

  /** An accepted list builds, whatever its order. */
  lemma {:induction false} AcceptedBuilds(fold: Fold, bs: seq<Binding>)
    requires IsAccepted(fold, bs)
    ensures Build(fold, bs).Some? && Follows(fold, Build(fold, bs).value, bs)
  {
    if bs != [] {
      var init, b := bs[..|bs| - 1], bs[|bs| - 1];
      AcceptedBuilds(fold, init);
      var t := Build(fold, init).value;
      NothingInTheWay(fold, t, bs);
      SplitNames(b.path);
      CreateKeepsClean(fold, t, PathOf(b), b.stored);
      CreateFollows(fold, t, bs);
    }
  }

  lemma NothingInTheWay(fold: Fold, t: Tree, bs: seq<Binding>)
    requires bs != [] && IsAccepted(fold, bs) && Follows(fold, t, bs[..|bs| - 1])
    ensures Create(fold, t, PathOf(bs[|bs| - 1]), bs[|bs| - 1].stored).Some?
  {
    var init, b := bs[..|bs| - 1], bs[|bs| - 1];
    var p := PathOf(b);
    if Create(fold, t, p, b.stored).None? {
      var q := RefusalHasACause(fold, t, p, b.stored);
      BlockMeansOverlap(fold, t, init, p, q);
    }
  }

  lemma BlockMeansOverlap(fold: Fold, t: Tree, bs: seq<Binding>, p: Path, q: Path)
    requires Follows(fold, t, bs) && Blocks(fold, t, p, q)
    ensures exists i :: 0 <= i < |bs| && Overlap(fold, PathOf(bs[i]), p)
  {
    if FoldPrefix(fold, q, p) && exists c :: HasFile(t, q, c) {
      var c :| HasFile(t, q, c);
      var i :| 0 <= i < |bs| && SameFold(fold, q, PathOf(bs[i]));
      FoldEuclid(fold, q, PathOf(bs[i]), p);
      assert Overlap(fold, PathOf(bs[i]), p);
    } else {
      var i :| 0 <= i < |bs| && |q| < |PathOf(bs[i])| && FoldPrefix(fold, q, PathOf(bs[i]));
      FoldEuclid(fold, q, p, PathOf(bs[i]));
      assert Overlap(fold, PathOf(bs[i]), p);
    }
  }

  lemma CreateFollows(fold: Fold, t: Tree, bs: seq<Binding>)
    requires bs != [] && Follows(fold, t, bs[..|bs| - 1])
    requires Create(fold, t, PathOf(bs[|bs| - 1]), bs[|bs| - 1].stored).Some?
    requires IsClean(fold, Create(fold, t, PathOf(bs[|bs| - 1]), bs[|bs| - 1].stored).value)
    ensures Follows(fold, Create(fold, t, PathOf(bs[|bs| - 1]), bs[|bs| - 1].stored).value, bs)
  {
    var last := |bs| - 1;
    var init, p, stored := bs[..last], PathOf(bs[last]), bs[last].stored;
    var u := Create(fold, t, p, stored).value;
    var landing := Landing(fold, t, p);
    LandingIsEquivalent(fold, t, p);
    forall q, c | HasFile(u, q, c) ensures exists i :: 0 <= i < |bs| && SameFold(fold, q, PathOf(bs[i])) {
      CreateAddsTheFile(fold, t, p, stored, q, c);
      if HasFile(t, q, c) {
        var i :| 0 <= i < |init| && SameFold(fold, q, PathOf(init[i]));
        assert SameFold(fold, q, PathOf(bs[i]));
      } else {
        assert SameFold(fold, q, PathOf(bs[last]));
      }
    }
    forall q | HasDir(u, q)
      ensures exists i :: 0 <= i < |bs| && |q| < |PathOf(bs[i])| && FoldPrefix(fold, q, PathOf(bs[i])) {
      CreateAddsTheParents(fold, t, p, stored, q);
      if HasDir(t, q) {
        var i :| 0 <= i < |init| && |q| < |PathOf(init[i])| && FoldPrefix(fold, q, PathOf(init[i]));
        assert FoldPrefix(fold, q, PathOf(bs[i]));
      } else {
        PrefixOfEquivalent(fold, q, landing, p);
        assert FoldPrefix(fold, q, PathOf(bs[last]));
      }
    }
  }

  lemma {:induction false} PrefixOfEquivalent(fold: Fold, q: Path, a: Path, b: Path)
    requires q <= a && FoldPrefix(fold, a, b)
    ensures FoldPrefix(fold, q, b)
    decreases |q|
  {
    if q != [] { PrefixOfEquivalent(fold, q[1..], a[1..], b[1..]); }
  }

  // ----- Overlaps are exactly what stops a build -----

  lemma {:induction false} TakenByAFile(fold: Fold, t: Tree, q: Path, c: Bytes)
    requires HasFile(t, q, c)
    ensures |q| > 0 && IsTaken(fold, t, q[0])
    decreases t
  {
    match t {
      case File(_, _, next) => if HasFile(next, q, c) { TakenByAFile(fold, next, q, c); }
      case Link(_, next) => TakenByAFile(fold, next, q, c);
      case Sub(_, _, next) => if HasFile(next, q, c) { TakenByAFile(fold, next, q, c); }
    }
  }

  lemma FileBelowAnotherName(fold: Fold, name: Bytes, t: Tree, q: Path, c: Bytes)
    requires !IsTaken(fold, t, name) && HasFile(t, q, c)
    ensures |q| > 0 && fold(name) != fold(q[0])
  {
    TakenByAFile(fold, t, q, c);
    if fold(name) == fold(q[0]) { TakenByName(fold, t, name, q[0]); }
  }

  lemma {:induction false} FileInTheWay(fold: Fold, t: Tree, p: Path, content: Bytes, q: Path, c: Bytes)
    requires |p| > 0 && IsDistinct(fold, t) && HasFile(t, q, c) && FoldPrefix(fold, q, p)
    ensures Create(fold, t, p, content).None?
    decreases t
  {
    HeldIsNonEmpty(t, q, c);
    match t {
      case File(n, _, next) => if HasFile(next, q, c) { FileInTheWay(fold, next, p, content, q, c); }
      case Link(_, next) => FileInTheWay(fold, next, p, content, q, c);
      case Sub(n, child, next) =>
        if HasFile(next, q, c) {
          FileBelowAnotherName(fold, n, next, q, c);
          FileInTheWay(fold, next, p, content, q, c);
        } else if |p| > 1 {
          FileInTheWay(fold, child, p[1..], content, q[1..], c);
        }
    }
  }

  lemma {:induction false} DirectoryInTheWay(fold: Fold, t: Tree, p: Path, content: Bytes, q: Path)
    requires |p| > 0 && IsDistinct(fold, t) && HasDir(t, q) && SameFold(fold, q, p)
    ensures Create(fold, t, p, content).None?
    decreases t
  {
    match t {
      case File(n, _, next) => DirectoryInTheWay(fold, next, p, content, q);
      case Link(_, next) => DirectoryInTheWay(fold, next, p, content, q);
      case Sub(n, child, next) =>
        if HasDir(next, q) {
          HeldBelowAnotherName(fold, n, next, q);
          DirectoryInTheWay(fold, next, p, content, q);
        } else if |p| > 1 {
          DirectoryInTheWay(fold, child, p[1..], content, q[1..]);
        }
    }
  }

  lemma {:induction false} FileHasParents(t: Tree, q: Path, c: Bytes, k: nat)
    requires HasFile(t, q, c) && 0 < k < |q|
    ensures HasDir(t, q[..k])
    decreases t
  {
    match t {
      case File(_, _, next) => FileHasParents(next, q, c, k);
      case Link(_, next) => FileHasParents(next, q, c, k);
      case Sub(n, child, next) =>
        if HasFile(next, q, c) {
          FileHasParents(next, q, c, k);
        } else if k > 1 {
          FileHasParents(child, q[1..], c, k - 1);
          assert q[..k][1..] == q[1..][..k - 1];
        } else {
          assert q[..1] == [n];
        }
    }
  }

  lemma {:induction false} FoldTransitive(fold: Fold, a: Path, b: Path, c: Path)
    requires FoldPrefix(fold, a, b) && FoldPrefix(fold, b, c)
    ensures FoldPrefix(fold, a, c)
    decreases |a|
  {
    if a != [] { FoldTransitive(fold, a[1..], b[1..], c[1..]); }
  }

  lemma {:induction false} FoldCommon(fold: Fold, a: Path, b: Path, c: Path)
    requires FoldPrefix(fold, a, c) && FoldPrefix(fold, b, c) && |a| <= |b|
    ensures FoldPrefix(fold, a, b)
    decreases |a|
  {
    if a != [] { FoldCommon(fold, a[1..], b[1..], c[1..]); }
  }

  lemma {:induction false} BuiltIsClean(fold: Fold, bs: seq<Binding>)
    requires (forall i | 0 <= i < |bs| :: 0 !in bs[i].path) && Build(fold, bs).Some?
    ensures IsClean(fold, Build(fold, bs).value)
  {
    if bs != [] {
      var init, b := bs[..|bs| - 1], bs[|bs| - 1];
      BuiltIsClean(fold, init);
      SplitNames(b.path);
      CreateKeepsClean(fold, Build(fold, init).value, PathOf(b), b.stored);
    }
  }

  /** Every binding of a built list has its file somewhere equivalent to its path. */
  lemma {:induction false} EveryFileLands(fold: Fold, bs: seq<Binding>, i: nat) returns (q: Path)
    requires i < |bs| && Build(fold, bs).Some?
    ensures HasFile(Build(fold, bs).value, q, bs[i].stored) && SameFold(fold, q, PathOf(bs[i]))
  {
    var last := |bs| - 1;
    var init, p := bs[..last], PathOf(bs[last]);
    var t := Build(fold, init).value;
    if i < last {
      q := EveryFileLands(fold, init, i);
    } else {
      q := Landing(fold, t, p);
      LandingIsEquivalent(fold, t, p);
    }
    CreateAddsTheFile(fold, t, p, bs[last].stored, q, bs[i].stored);
  }

  lemma OverlapStopsTheBuild(fold: Fold, t: Tree, p: Path, content: Bytes, q: Path, c: Bytes, other: Path)
    requires |p| > 0 && IsDistinct(fold, t) && HasFile(t, q, c) && SameFold(fold, q, other) && Overlap(fold, other, p)
    ensures Create(fold, t, p, content).None?
  {
    if FoldPrefix(fold, other, p) {
      FoldTransitive(fold, q, other, p);
      FileInTheWay(fold, t, p, content, q, c);
    } else {
      FoldPrefixIsShorter(fold, p, other);
      var k := |p|;
      if k == |q| {
        FoldCommon(fold, q, p, other);
        FileInTheWay(fold, t, p, content, q, c);
      } else {
        FileHasParents(t, q, c, k);
        PrefixOfEquivalent(fold, q[..k], q, other);
        FoldCommon(fold, q[..k], p, other);
        DirectoryInTheWay(fold, t, p, content, q[..k]);
      }
    }
  }

  /** A list builds, in its order, if and only if no two of its paths overlap for the file system. */
  lemma {:induction false} BuildsExactlyWithoutOverlap(fold: Fold, bs: seq<Binding>)
    requires forall i | 0 <= i < |bs| :: 0 !in bs[i].path
    ensures Build(fold, bs).Some? <==> IsAccepted(fold, bs)
    decreases |bs|
  {
    if IsAccepted(fold, bs) {
      AcceptedBuilds(fold, bs);
    } else {
      var i, j :| 0 <= i < j < |bs| && Overlap(fold, PathOf(bs[i]), PathOf(bs[j]));
      var init := bs[..|bs| - 1];
      if j < |init| {
        assert Overlap(fold, PathOf(init[i]), PathOf(init[j]));
        BuildsExactlyWithoutOverlap(fold, init);
      } else if Build(fold, init).Some? {
        LastIsStopped(fold, bs, i);
      }
    }
  }

  lemma LastIsStopped(fold: Fold, bs: seq<Binding>, i: nat)
    requires forall k | 0 <= k < |bs| :: 0 !in bs[k].path
    requires i < |bs| - 1 && Build(fold, bs[..|bs| - 1]).Some? && Overlap(fold, PathOf(bs[i]), PathOf(bs[|bs| - 1]))
    ensures Build(fold, bs).None?
  {
    var init, last := bs[..|bs| - 1], bs[|bs| - 1];
    BuiltIsClean(fold, init);
    var q := EveryFileLands(fold, init, i);
    OverlapStopsTheBuild(fold, Build(fold, init).value, PathOf(last), last.stored, q, bs[i].stored, PathOf(bs[i]));
  }

  // ----- When the tree holds exactly what was committed -----

  /** No two directories of the list are equivalent without being equal. */
  predicate HasNoAliases(fold: Fold, bs: seq<Binding>) {
    forall i, j, k | 0 <= i < |bs| && 0 <= j < |bs| && 0 < k < |PathOf(bs[i])| && k < |PathOf(bs[j])| ::
      SameFold(fold, PathOf(bs[i])[..k], PathOf(bs[j])[..k]) ==> PathOf(bs[i])[..k] == PathOf(bs[j])[..k]
  }

  ghost predicate HoldsExactly(t: Tree, bs: seq<Binding>) {
    && (forall q, c :: HasFile(t, q, c) <==> Committed(bs, q, c))
    && (forall q :: HasDir(t, q) <==> CommittedParent(bs, q))
  }

  lemma {:induction false} BuildHoldsExactly(fold: Fold, bs: seq<Binding>)
    requires IsAccepted(fold, bs) && HasNoAliases(fold, bs)
    ensures Build(fold, bs).Some? && HoldsExactly(Build(fold, bs).value, bs)
  {
    AcceptedBuilds(fold, bs);
    if bs != [] {
      var last := |bs| - 1;
      var init, p, stored := bs[..last], PathOf(bs[last]), bs[last].stored;
      BuildHoldsExactly(fold, init);
      var t := Build(fold, init).value;
      NoDetour(fold, t, bs);
      forall q, c ensures HasFile(Build(fold, bs).value, q, c) <==> Committed(bs, q, c) {
        CreateAddsTheFile(fold, t, p, stored, q, c);
        CommittedSnoc(bs, q, c);
      }
      forall q ensures HasDir(Build(fold, bs).value, q) <==> CommittedParent(bs, q) {
        CreateAddsTheParents(fold, t, p, stored, q);
        CommittedParentSnoc(bs, q);
      }
    }
  }

  lemma CommittedSnoc(bs: seq<Binding>, q: Path, c: Bytes)
    requires bs != []
    ensures Committed(bs, q, c) <==>
      Committed(bs[..|bs| - 1], q, c) || (PathOf(bs[|bs| - 1]) == q && bs[|bs| - 1].stored == c)
  {
    var init := bs[..|bs| - 1];
    if i :| 0 <= i < |init| && PathOf(init[i]) == q && init[i].stored == c { assert PathOf(bs[i]) == q; }
    if i :| 0 <= i < |bs| && PathOf(bs[i]) == q && bs[i].stored == c { assert i < |init| ==> PathOf(init[i]) == q; }
  }

  lemma CommittedParentSnoc(bs: seq<Binding>, q: Path)
    requires bs != []
    ensures CommittedParent(bs, q) <==> CommittedParent(bs[..|bs| - 1], q) || IsParent(q, PathOf(bs[|bs| - 1]))
  {
    var init := bs[..|bs| - 1];
    if i :| 0 <= i < |init| && IsParent(q, PathOf(init[i])) { assert IsParent(q, PathOf(bs[i])); }
    if i :| 0 <= i < |bs| && IsParent(q, PathOf(bs[i])) { assert i < |init| ==> IsParent(q, PathOf(init[i])); }
  }

  lemma NoDetour(fold: Fold, t: Tree, bs: seq<Binding>)
    requires bs != [] && HasNoAliases(fold, bs) && HoldsExactly(t, bs[..|bs| - 1])
    ensures Landing(fold, t, PathOf(bs[|bs| - 1])) == PathOf(bs[|bs| - 1])
  {
    var last := |bs| - 1;
    var init, p := bs[..last], PathOf(bs[last]);
    forall q | HasDir(t, q) && 0 < |q| < |p| && FoldPrefix(fold, q, p) ensures q <= p {
      assert CommittedParent(init, q);
      var i :| 0 <= i < |init| && IsParent(q, PathOf(init[i]));
      assert init[i] == bs[i];
      assert q == PathOf(bs[i])[..|q|];
      FoldPrefixOfCut(fold, q, p, |q|);
      assert SameFold(fold, PathOf(bs[i])[..|q|], PathOf(bs[last])[..|q|]);
    }
    LandingIsExact(fold, t, p);
  }

  /** A built tree never holds two of the list's directories that are equivalent but different. */
  lemma AliasesAreLost(fold: Fold, t: Tree, bs: seq<Binding>)
    requires IsDistinct(fold, t) && !HasNoAliases(fold, bs)
    ensures exists q :: CommittedParent(bs, q) && !HasDir(t, q)
  {
    var i, j, k :| 0 <= i < |bs| && 0 <= j < |bs| && 0 < k < |PathOf(bs[i])| && k < |PathOf(bs[j])|
      && SameFold(fold, PathOf(bs[i])[..k], PathOf(bs[j])[..k]) && PathOf(bs[i])[..k] != PathOf(bs[j])[..k];
    var a, b := PathOf(bs[i])[..k], PathOf(bs[j])[..k];
    assert IsParent(a, PathOf(bs[i])) && IsParent(b, PathOf(bs[j]));
    assert CommittedParent(bs, a) && CommittedParent(bs, b);
    if HasDir(t, a) && HasDir(t, b) { EquivalentDirectoriesAreOne(fold, t, a, b); }
  }
}
