/** Two encoders of one input tree: from the list of bindings and from a walk of the real tree. */
module InputTree {
  import opened Canonical
  import opened Types

  type Path = seq<Bytes>

  /** A directory's entries as a chain; a link is a reparse point. */
  datatype Tree =
    | Nil
    | File(name: Bytes, content: Bytes, next: Tree)
    | Sub(name: Bytes, child: Tree, next: Tree)
    | Link(name: Bytes, next: Tree)

  /** The name equivalence of a file system: equal values name the same entry. */
  type Fold = Bytes -> Bytes

  type Sha = Bytes -> Bytes

  /** A committed input: where it is presented, and the digest and length of the object stored for it. */
  datatype Binding = Binding(path: Bytes, digest: Bytes, byteLength: nat, stored: Bytes)

  predicate HasFile(t: Tree, p: Path, content: Bytes) {
    match t
    case Nil => false
    case File(n, c, next) => (p == [n] && c == content) || HasFile(next, p, content)
    case Sub(n, child, next) => (|p| > 1 && p[0] == n && HasFile(child, p[1..], content)) || HasFile(next, p, content)
    case Link(_, next) => HasFile(next, p, content)
  }

  predicate HasDir(t: Tree, p: Path) {
    match t
    case Nil => false
    case File(_, _, next) => HasDir(next, p)
    case Sub(n, child, next) => p == [n] || (|p| > 1 && p[0] == n && HasDir(child, p[1..])) || HasDir(next, p)
    case Link(_, next) => HasDir(next, p)
  }

  predicate HasLink(t: Tree) {
    match t
    case Nil => false
    case File(_, _, next) => HasLink(next)
    case Sub(_, child, next) => HasLink(child) || HasLink(next)
    case Link(_, _) => true
  }

  predicate IsName(name: Bytes) {
    SLASH !in name && 0 !in name
  }

  /** Every name in the tree is one the file system can store. */
  predicate IsNamed(t: Tree) {
    match t
    case Nil => true
    case File(n, _, next) => IsName(n) && IsNamed(next)
    case Sub(n, child, next) => IsName(n) && IsNamed(child) && IsNamed(next)
    case Link(n, next) => IsName(n) && IsNamed(next)
  }

  /** Some entry of this level has an equivalent name. */
  predicate IsTaken(fold: Fold, t: Tree, name: Bytes) {
    match t
    case Nil => false
    case File(n, _, next) => fold(n) == fold(name) || IsTaken(fold, next, name)
    case Sub(n, _, next) => fold(n) == fold(name) || IsTaken(fold, next, name)
    case Link(n, next) => fold(n) == fold(name) || IsTaken(fold, next, name)
  }

  /** No level holds two equivalent names, as a file system guarantees. */
  predicate IsDistinct(fold: Fold, t: Tree) {
    match t
    case Nil => true
    case File(n, _, next) => !IsTaken(fold, next, n) && IsDistinct(fold, next)
    case Sub(n, child, next) => !IsTaken(fold, next, n) && IsDistinct(fold, child) && IsDistinct(fold, next)
    case Link(n, next) => !IsTaken(fold, next, n) && IsDistinct(fold, next)
  }

  // ----- The launcher's walk -----

  function FileEntry(sha: Sha, p: Path, content: Bytes): Entry
    requires |p| > 0
  {
    F(Join(p), sha(content), |content|)
  }

  function LevelFiles(sha: Sha, t: Tree, at: Path): seq<Entry> {
    match t
    case Nil => []
    case File(n, c, next) => [FileEntry(sha, at + [n], c)] + LevelFiles(sha, next, at)
    case Sub(_, _, next) => LevelFiles(sha, next, at)
    case Link(_, next) => LevelFiles(sha, next, at)
  }

  /** The files below the directories of this level. */
  function DeepFiles(sha: Sha, t: Tree, at: Path): seq<Entry>
    decreases t, 0
  {
    match t
    case Nil => []
    case File(_, _, next) => DeepFiles(sha, next, at)
    case Sub(n, child, next) => FilesOf(sha, child, at + [n]) + DeepFiles(sha, next, at)
    case Link(_, next) => DeepFiles(sha, next, at)
  }

  function FilesOf(sha: Sha, t: Tree, at: Path): seq<Entry>
    decreases t, 1
  {
    LevelFiles(sha, t, at) + DeepFiles(sha, t, at)
  }

  function DirsOf(t: Tree, at: Path): seq<Entry> {
    match t
    case Nil => []
    case File(_, _, next) => DirsOf(next, at)
    case Sub(n, child, next) => [D(Join(at + [n]))] + DirsOf(child, at + [n]) + DirsOf(next, at)
    case Link(_, next) => DirsOf(next, at)
  }

  /** The canonical bytes of a tree, which a reparse point anywhere makes impossible. */
  function TreeBytes(sha: Sha, t: Tree): Option<Bytes> {
    if HasLink(t) then None else Some(Encode(Sort(DirsOf(t, [])), Sort(FilesOf(sha, t, []))))
  }

  /** The file loop of the walk. */
  method CollectFiles(sha: Sha, t: Tree, at: Path, files: seq<Entry>) returns (ok: bool, moreFiles: seq<Entry>)
    ensures HasLink(t) <== !ok
    ensures ok ==> moreFiles == files + LevelFiles(sha, t, at)
  {
    moreFiles := files;
    var rest := t;
    while rest != Nil
      invariant HasLink(t) <== HasLink(rest)
      invariant moreFiles + LevelFiles(sha, rest, at) == files + LevelFiles(sha, t, at)
      decreases rest
    {
      match rest {
        case File(n, c, next) =>
          moreFiles := moreFiles + [FileEntry(sha, at + [n], c)];
          rest := next;
        case Sub(_, _, next) =>
          rest := next;
        case Link(_, _) =>
          return false, moreFiles;
      }
    }
    ok := true;
  }

  /** Appends a directory's files and then, directory by directory, everything below. */
  method CollectInputTree(sha: Sha, t: Tree, at: Path, dirs: seq<Entry>, files: seq<Entry>)
    returns (ok: bool, moreDirs: seq<Entry>, moreFiles: seq<Entry>)
    ensures ok <==> !HasLink(t)
    ensures ok ==> moreDirs == dirs + DirsOf(t, at) && moreFiles == files + FilesOf(sha, t, at)
    decreases t, 1
  {
    moreDirs := dirs;
    ok, moreFiles := CollectFiles(sha, t, at, files);
    if !ok { return; }
    ok, moreDirs, moreFiles := CollectDirectories(sha, t, at, dirs, moreFiles);
  }

  /** The directory loop of the walk. */
  method CollectDirectories(sha: Sha, t: Tree, at: Path, dirs: seq<Entry>, files: seq<Entry>)
    returns (ok: bool, moreDirs: seq<Entry>, moreFiles: seq<Entry>)
    ensures ok <==> !HasLink(t)
    ensures ok ==> moreDirs == dirs + DirsOf(t, at) && moreFiles == files + DeepFiles(sha, t, at)
    decreases t, 0
  {
    moreDirs, moreFiles := dirs, files;
    var rest := t;
    while rest != Nil
      invariant rest == t || rest < t
      invariant HasLink(t) <==> HasLink(rest)
      invariant moreDirs + DirsOf(rest, at) == dirs + DirsOf(t, at)
      invariant moreFiles + DeepFiles(sha, rest, at) == files + DeepFiles(sha, t, at)
      decreases rest
    {
      match rest {
        case File(_, _, next) =>
          rest := next;
        case Sub(n, child, next) =>
          ghost var dirsBefore, filesBefore := moreDirs, moreFiles;
          moreDirs := moreDirs + [D(Join(at + [n]))];
          ok, moreDirs, moreFiles := CollectInputTree(sha, child, at + [n], moreDirs, moreFiles);
          if !ok { return; }
          Regroup(dirsBefore, [D(Join(at + [n]))], DirsOf(child, at + [n]), DirsOf(next, at));
          Regroup(filesBefore, [], FilesOf(sha, child, at + [n]), DeepFiles(sha, next, at));
          rest := next;
        case Link(_, _) =>
          return false, moreDirs, moreFiles;
      }
    }
    ok := true;
  }

  lemma Regroup(a: seq<Entry>, b: seq<Entry>, c: seq<Entry>, d: seq<Entry>)
    ensures ((a + b) + c) + d == a + (b + c + d)
    ensures (a + c) + d == a + (c + d)
  {
  }

  method InputTreeBytes(sha: Sha, t: Tree) returns (bytes: Option<Bytes>)
    ensures bytes == TreeBytes(sha, t)
  {
    var ok, dirs, files := CollectInputTree(sha, t, [], [], []);
    if !ok { return None; }
    assert dirs == DirsOf(t, []) && files == FilesOf(sha, t, []);
    var canonical := WriteTree(Sort(dirs), Sort(files));
    return Some(canonical);
  }

  // ----- The engine's derivation from the bindings -----

  function BindingEntry(b: Binding): Entry {
    F(b.path, b.digest, b.byteLength)
  }

  function BindingFiles(bs: seq<Binding>): seq<Entry> {
    seq(|bs|, i requires 0 <= i < |bs| => BindingEntry(bs[i]))
  }

  function ParentEntry(parts: Path, k: nat): Entry
    requires 0 < k <= |parts|
  {
    D(Join(parts[..k]))
  }

  /** Adds the first k - 1 proper prefixes of the path to the ordered set of directories. */
  function WithParents(dirs: seq<Entry>, parts: Path, k: nat): seq<Entry>
    requires 1 <= k <= |parts|
  {
    if k == 1 then dirs else InsertNew(ParentEntry(parts, k - 1), WithParents(dirs, parts, k - 1))
  }

  function ParentsOf(files: seq<Entry>): seq<Entry> {
    if files == [] then []
    else
      var parts := Split(files[|files| - 1].path);
      WithParents(ParentsOf(files[..|files| - 1]), parts, |parts|)
  }

  function BindingBytes(bs: seq<Binding>): Bytes {
    var ordered := Sort(BindingFiles(bs));
    Encode(ParentsOf(ordered), ordered)
  }

  method WindowsInputBindingsBytes(bs: seq<Binding>) returns (bytes: Bytes)
    ensures bytes == BindingBytes(bs)
  {
    var ordered := Sort(BindingFiles(bs));
    var directories: seq<Entry> := [];
    var i := 0;
    while i < |ordered|
      invariant 0 <= i <= |ordered|
      invariant directories == ParentsOf(ordered[..i])
    {
      assert ordered[..i + 1][..i] == ordered[..i];
      var components := Split(ordered[i].path);
      var end := 1;
      while end < |components|
        invariant 1 <= end <= |components|
        invariant directories == WithParents(ParentsOf(ordered[..i]), components, end)
      {
        directories := InsertNew(D(Join(components[..end])), directories);
        end := end + 1;
      }
      i := i + 1;
    }
    assert ordered[..i] == ordered;
    bytes := WriteTree(directories, ordered);
  }
}
