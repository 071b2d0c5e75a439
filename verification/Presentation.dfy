/** Which lists of input paths are accepted, and what a normal end of the presentation proves. */
module Presentation {
  import opened Canonical
  import opened Types
  import opened InputTree
  import opened Materialized
  import opened Agreement

  // ----- The checks on the paths -----

  predicate IsForbidden(b: Byte) {
    b < 0x20 || b == 0x3C || b == 0x3E || b == 0x3A || b == 0x22 || b == 0x7C || b == 0x3F || b == 0x2A || b == 0x5C
  }

  function Upper(name: Bytes): Bytes {
    seq(|name|, i requires 0 <= i < |name| => if 0x61 <= name[i] <= 0x7A then name[i] - 0x20 else name[i])
  }

  /** The part of a component before its first dot. */
  function Stem(component: Bytes): Bytes {
    if component == [] || component[0] == 0x2E then [] else [component[0]] + Stem(component[1..])
  }

  predicate IsDeviceName(stem: Bytes) {
    || stem == Ascii("CON") || stem == Ascii("PRN") || stem == Ascii("AUX") || stem == Ascii("NUL")
    || (|stem| == 4 && (stem[..3] == Ascii("COM") || stem[..3] == Ascii("LPT")) && 0x31 <= stem[3] <= 0x39)
  }

  predicate IsWindowsComponent(component: Bytes) {
    && component != []
    && component[|component| - 1] != 0x20 && component[|component| - 1] != 0x2E
    && (forall i | 0 <= i < |component| :: !IsForbidden(component[i]))
    && !IsDeviceName(Upper(Stem(component)))
  }

  /** The device names that Windows reserves. */
  const RESERVED: seq<string> := ["CON", "PRN", "AUX", "NUL",
    "COM1", "COM2", "COM3", "COM4", "COM5", "COM6", "COM7", "COM8", "COM9",
    "LPT1", "LPT2", "LPT3", "LPT4", "LPT5", "LPT6", "LPT7", "LPT8", "LPT9"]

  predicate SameLetter(capital: char, b: Byte) {
    b == capital as int || ('A' <= capital <= 'Z' && b == capital as int + 0x20)
  }

  /** The component is the name in any case, with or without an extension. */
  predicate Spells(component: Bytes, name: string) {
    && |name| <= |component|
    && (forall i | 0 <= i < |name| :: SameLetter(name[i], component[i]))
    && (|component| == |name| || component[|name|] == 0x2E)
  }

  predicate IsCapital(name: string) {
    forall i | 0 <= i < |name| :: 'A' <= name[i] <= 'Z' || '0' <= name[i] <= '9'
  }

  lemma {:induction false} StemIsFront(component: Bytes)
    ensures var n := |Stem(component)|;
      && n <= |component| && Stem(component) == component[..n]
      && (forall i | 0 <= i < n :: component[i] != 0x2E)
      && (n == |component| || component[n] == 0x2E)
  {
    if component != [] && component[0] != 0x2E {
      StemIsFront(component[1..]);
      assert forall i | 1 <= i < |component| :: component[i] == component[1..][i - 1];
      var n := |Stem(component)|;
      assert component[..n] == [component[0]] + component[1..][..n - 1];
    }
  }

  lemma SpellsExactly(component: Bytes, name: string)
    requires IsCapital(name)
    ensures Spells(component, name) <==> Upper(Stem(component)) == Ascii(name)
  {
    StemIsFront(component);
    var stem := Stem(component);
    assert forall i | 0 <= i < |stem| :: stem[i] == component[i];
    if Spells(component, name) {
      assert forall i | 0 <= i < |name| :: SameLetter(name[i], component[i]) && component[i] != 0x2E;
      assert |stem| == |name|;
    }
    if Upper(stem) == Ascii(name) {
      assert |stem| == |Upper(stem)| == |Ascii(name)| == |name|;
      forall i | 0 <= i < |name| ensures SameLetter(name[i], component[i]) {
        assert Upper(stem)[i] == Ascii(name)[i] == name[i] as int;
        assert stem[i] == component[i];
      }
    }
  }

  lemma ReservedAreCapital(i: nat)
    requires i < |RESERVED|
    ensures IsCapital(RESERVED[i]) && IsDeviceName(Ascii(RESERVED[i]))
  {
  }

  lemma DeviceIsReserved(stem: Bytes) returns (i: nat)
    requires IsDeviceName(stem)
    ensures i < |RESERVED| && stem == Ascii(RESERVED[i])
  {
    if stem == Ascii("CON") {
      i := 0;
    } else if stem == Ascii("PRN") {
      i := 1;
    } else if stem == Ascii("AUX") {
      i := 2;
    } else if stem == Ascii("NUL") {
      i := 3;
    } else {
      i := (if stem[..3] == Ascii("COM") then 4 else 13) + stem[3] - 0x31;
      PortName(i);
      assert stem == stem[..3] + [stem[3]];
    }
  }

  lemma PortName(i: nat)
    requires 4 <= i < 22
    ensures Ascii(RESERVED[i]) == (if i < 13 then Ascii("COM") + [i + 0x2D] else Ascii("LPT") + [i + 0x24])
  {
  }

  /** A component is accepted exactly when it is not empty, has no control character, backslash or wildcard in it
      and no space or dot at its end, and spells no device name in any case or with any extension. */
  lemma ComponentIsAcceptedExactlyWhen(component: Bytes)
    ensures IsWindowsComponent(component) <==>
      && component != [] && component[|component| - 1] != ' ' as int && component[|component| - 1] != '.' as int
      && (forall i | 0 <= i < |component| :: component[i] >= 0x20 && component[i] !in Ascii("<>:\"|?*\\"))
      && (forall i | 0 <= i < |RESERVED| :: !Spells(component, RESERVED[i]))
  {
    var stem := Upper(Stem(component));
    forall i | 0 <= i < |RESERVED| ensures Spells(component, RESERVED[i]) <==> stem == Ascii(RESERVED[i]) {
      ReservedAreCapital(i);
      SpellsExactly(component, RESERVED[i]);
    }
    if IsDeviceName(stem) {
      var i := DeviceIsReserved(stem);
      assert Spells(component, RESERVED[i]);
    } else {
      forall i | 0 <= i < |RESERVED| ensures !Spells(component, RESERVED[i]) { ReservedAreCapital(i); }
    }
    ForbiddenAreExactly();
  }

  lemma ForbiddenAreExactly()
    ensures forall b: Byte :: IsForbidden(b) <==> b < 0x20 || b in Ascii("<>:\"|?*\\")
  {
    var marks := Ascii("<>:\"|?*\\");
    assert marks == [0x3C, 0x3E, 0x3A, 0x22, 0x7C, 0x3F, 0x2A, 0x5C];
  }

  predicate IsWindowsPath(path: Bytes) {
    forall i | 0 <= i < |Split(path)| :: IsWindowsComponent(Split(path)[i])
  }

  /** A case mapping never makes a slash or a NUL. */
  ghost predicate IsCaseMapping(lower: Fold) {
    forall name :: IsName(name) ==> IsName(lower(name))
  }

  function FoldAll(fold: Fold, p: Path): (q: Path)
    ensures |q| == |p|
  {
    if p == [] then [] else [fold(p[0])] + FoldAll(fold, p[1..])
  }

  /** The path in the form in which the aliasing check compares it. */
  function FoldText(lower: Fold, path: Bytes): Bytes {
    Join(FoldAll(lower, Split(path)))
  }

  /** Equal texts, or the first ends at a slash of the second. */
  predicate Covers(a: Bytes, b: Bytes) {
    a == b || (|a| < |b| && a <= b && b[|a|] == SLASH)
  }

  lemma {:induction false} FoldedPrefix(fold: Fold, a: Path, b: Path)
    ensures FoldPrefix(fold, a, b) <==> FoldAll(fold, a) <= FoldAll(fold, b)
    decreases |a|
  {
    if a != [] && b != [] {
      FoldedPrefix(fold, a[1..], b[1..]);
      var x, y := FoldAll(fold, a), FoldAll(fold, b);
      assert x[1..] == FoldAll(fold, a[1..]) && y[1..] == FoldAll(fold, b[1..]);
      assert x == [x[0]] + x[1..] && y == [y[0]] + y[1..];
    }
  }

  lemma {:induction false} FoldAllNames(lower: Fold, p: Path)
    requires IsCaseMapping(lower) && AreNames(p)
    ensures AreNames(FoldAll(lower, p))
  {
    if p != [] {
      assert IsName(p[0]);
      FoldAllNames(lower, p[1..]);
    }
  }

  lemma {:induction false} JoinAppend(a: Path, b: Path)
    requires |a| > 0 && |b| > 0
    ensures Join(a + b) == Join(a) + [SLASH] + Join(b)
    decreases |a|
  {
    assert (a + b)[1..] == a[1..] + b;
    if |a| == 1 { assert a[1..] + b == b; } else { JoinAppend(a[1..], b); }
  }

  lemma CoveredTextIsPrefix(a: Path, b: Path)
    requires |a| > 0 && |b| > 0 && AreNames(a) && AreNames(b) && Covers(Join(a), Join(b))
    ensures a <= b
  {
    SplitJoin(a);
    SplitJoin(b);
    var x, y := Join(a), Join(b);
    if x != y {
      var rest := y[|x| + 1..];
      assert y == x + [SLASH] + rest;
      SplitAppend(x, rest);
    }
  }

  /** On texts, starting with another path is starting with its components. */
  lemma CoversMeansPrefix(a: Path, b: Path)
    requires |a| > 0 && |b| > 0 && AreNames(a) && AreNames(b)
    ensures Covers(Join(a), Join(b)) <==> a <= b
  {
    if Covers(Join(a), Join(b)) { CoveredTextIsPrefix(a, b); }
    if a <= b && a != b {
      JoinAppend(a, b[|a|..]);
      assert b == a + b[|a|..];
    }
  }

  lemma FoldTextOverlap(lower: Fold, a: Bytes, b: Bytes)
    requires IsCaseMapping(lower) && 0 !in a && 0 !in b
    ensures Covers(FoldText(lower, a), FoldText(lower, b)) <==> FoldPrefix(lower, Split(a), Split(b))
  {
    SplitNames(a);
    SplitNames(b);
    FoldAllNames(lower, Split(a));
    FoldAllNames(lower, Split(b));
    CoversMeansPrefix(FoldAll(lower, Split(a)), FoldAll(lower, Split(b)));
    FoldedPrefix(lower, Split(a), Split(b));
  }

  lemma {:induction false} WindowsPathIsNulFree(path: Bytes)
    requires IsWindowsPath(path)
    ensures 0 !in path
  {
    NulIsInAPart(path);
  }

  lemma {:induction false} NulIsInAPart(path: Bytes)
    ensures 0 in path ==> exists i :: 0 <= i < |Split(path)| && 0 in Split(path)[i]
  {
    if path != [] {
      NulIsInAPart(path[1..]);
      var rest, parts := Split(path[1..]), Split(path);
      if path[0] == 0 {
        assert 0 in parts[0];
      } else if i :| 0 <= i < |rest| && 0 in rest[i] {
        if path[0] == SLASH {
          assert parts[i + 1] == rest[i];
        } else if i == 0 {
          assert parts[0] == [path[0]] + rest[0];
        } else {
          assert parts[i] == rest[i];
        }
      }
    }
  }

  predicate HaveNoOverlap(fold: Fold, paths: seq<Bytes>) {
    forall i, j | 0 <= i < j < |paths| :: !Overlap(fold, Split(paths[i]), Split(paths[j]))
  }

  lemma FoldTextAliases(lower: Fold, a: Bytes, b: Bytes)
    requires IsCaseMapping(lower) && 0 !in a && 0 !in b
    ensures Covers(FoldText(lower, a), FoldText(lower, b)) || Covers(FoldText(lower, b), FoldText(lower, a))
            <==> Overlap(lower, Split(a), Split(b))
  {
    FoldTextOverlap(lower, a, b);
    FoldTextOverlap(lower, b, a);
  }

  predicate AreWindowsPaths(paths: seq<Bytes>) {
    forall i | 0 <= i < |paths| :: IsWindowsPath(paths[i])
  }

  /** The texts kept are the case-mapped forms of the paths seen. */
  predicate AreNormalized(lower: Fold, seen: seq<Bytes>, normalized: seq<Bytes>) {
    |normalized| == |seen| && forall i | 0 <= i < |seen| :: 0 !in seen[i] && normalized[i] == FoldText(lower, seen[i])
  }

  predicate OverlapsOne(fold: Fold, seen: seq<Bytes>, path: Bytes) {
    exists i :: 0 <= i < |seen| && Overlap(fold, Split(seen[i]), Split(path))
  }

  /** Whether a path overlaps one of the paths seen before it, on the texts kept for them. */
  method IsAliased(lower: Fold, seen: seq<Bytes>, normalized: seq<Bytes>, path: Bytes) returns (found: bool)
    requires IsCaseMapping(lower) && 0 !in path && AreNormalized(lower, seen, normalized)
    ensures found <==> OverlapsOne(lower, seen, path)
  {
    var folded := FoldText(lower, path);
    var k := 0;
    while k < |seen|
      invariant 0 <= k <= |seen|
      invariant forall i | 0 <= i < k :: !Overlap(lower, Split(seen[i]), Split(path))
    {
      FoldTextAliases(lower, seen[k], path);
      if Covers(folded, normalized[k]) || Covers(normalized[k], folded) { return true; }
      k := k + 1;
    }
    found := false;
  }

  /** Accepts exactly the lists of well-formed paths that do not overlap after case mapping. */
  method ValidateWindowsInputRelativePaths(lower: Fold, paths: seq<Bytes>) returns (ok: bool)
    requires IsCaseMapping(lower)
    ensures ok <==> AreWindowsPaths(paths) && HaveNoOverlap(lower, paths)
  {
    var normalized: seq<Bytes> := [];
    var index := 0;
    while index < |paths|
      invariant 0 <= index <= |paths|
      invariant AreWindowsPaths(paths[..index])
      invariant AreNormalized(lower, paths[..index], normalized)
      invariant HaveNoOverlap(lower, paths[..index])
    {
      if !IsWindowsPath(paths[index]) { return false; }
      WindowsPathIsNulFree(paths[index]);
      var found := IsAliased(lower, paths[..index], normalized, paths[index]);
      NoOverlapSnoc(lower, paths, index);
      if found {
        return false;
      }
      OneMorePath(lower, paths, index, normalized);
      normalized := normalized + [FoldText(lower, paths[index])];
      index := index + 1;
    }
    assert paths[..index] == paths;
    ok := true;
  }

  lemma NoOverlapSnoc(fold: Fold, paths: seq<Bytes>, k: nat)
    requires k < |paths| && HaveNoOverlap(fold, paths[..k])
    ensures HaveNoOverlap(fold, paths[..k + 1]) <==> !OverlapsOne(fold, paths[..k], paths[k])
    ensures OverlapsOne(fold, paths[..k], paths[k]) ==> !HaveNoOverlap(fold, paths)
  {
    var longer := paths[..k + 1];
    assert longer == paths[..k] + [paths[k]];
    if i :| 0 <= i < k && Overlap(fold, Split(paths[..k][i]), Split(paths[k])) {
      assert Overlap(fold, Split(paths[i]), Split(paths[k]));
      assert longer[i] == paths[i] && longer[k] == paths[k];
    } else {
      forall i, j | 0 <= i < j < |longer| ensures !Overlap(fold, Split(longer[i]), Split(longer[j])) {
        assert paths[..k][i] == longer[i];
        assert j < k ==> paths[..k][j] == longer[j];
      }
    }
  }

  lemma OneMorePath(lower: Fold, paths: seq<Bytes>, k: nat, normalized: seq<Bytes>)
    requires k < |paths| && AreWindowsPaths(paths[..k]) && IsWindowsPath(paths[k])
    requires AreNormalized(lower, paths[..k], normalized) && 0 !in paths[k]
    ensures AreWindowsPaths(paths[..k + 1])
    ensures AreNormalized(lower, paths[..k + 1], normalized + [FoldText(lower, paths[k])])
  {
    assert paths[..k + 1] == paths[..k] + [paths[k]];
  }

  /** The overlap loop over the set of paths seen so far: exactly the lists of pairwise unrelated paths pass. */
  method RejectOverlaps(paths: seq<Bytes>) returns (ok: bool)
    ensures ok <==> HaveNoOverlap(Self, paths)
  {
    var seen: set<Bytes> := {};
    var index := 0;
    while index < |paths|
      invariant 0 <= index <= |paths|
      invariant seen == set i | 0 <= i < index :: paths[i]
      invariant HaveNoOverlap(Self, paths[..index])
    {
      var presentation := paths[index];
      if existing :| existing in seen && Overlap(Self, Split(existing), Split(presentation)) {
        var i :| 0 <= i < index && paths[i] == existing;
        return false;
      }
      forall i | 0 <= i < index ensures !Overlap(Self, Split(paths[i]), Split(presentation)) {
        assert paths[i] in seen;
      }
      seen := seen + {presentation};
      index := index + 1;
    }
    assert paths[..index] == paths;
    ok := true;
  }

  lemma {:induction false} EqualIsEquivalent(fold: Fold, a: Path, b: Path)
    requires FoldPrefix(Self, a, b)
    ensures FoldPrefix(fold, a, b)
    decreases |a|
  {
    if a != [] { EqualIsEquivalent(fold, a[1..], b[1..]); }
  }

  /** What the aliasing check accepts, the overlap loop accepts too. */
  lemma AliasingCheckIsStricter(lower: Fold, paths: seq<Bytes>)
    requires HaveNoOverlap(lower, paths)
    ensures HaveNoOverlap(Self, paths)
  {
    forall i, j | 0 <= i < j < |paths| ensures !Overlap(Self, Split(paths[i]), Split(paths[j])) {
      var a, b := Split(paths[i]), Split(paths[j]);
      if FoldPrefix(Self, a, b) { EqualIsEquivalent(lower, a, b); }
      if FoldPrefix(Self, b, a) { EqualIsEquivalent(lower, b, a); }
    }
  }

  function Paths(bs: seq<Binding>): seq<Bytes> {
    seq(|bs|, i requires 0 <= i < |bs| => bs[i].path)
  }

  /** The accepted lists are the lists that the agreement of the encoders is about. */
  lemma AcceptedPathsAreAccepted(fold: Fold, bs: seq<Binding>)
    requires AreWindowsPaths(Paths(bs)) && HaveNoOverlap(fold, Paths(bs))
    ensures IsAccepted(fold, bs)
  {
    forall i | 0 <= i < |bs| ensures 0 !in bs[i].path { WindowsPathIsNulFree(Paths(bs)[i]); }
    forall i, j | 0 <= i < j < |bs| ensures !Overlap(fold, PathOf(bs[i]), PathOf(bs[j])) {
      assert Paths(bs)[i] == bs[i].path && Paths(bs)[j] == bs[j].path;
    }
  }

  /** Names that the file system takes for one are one to the check's case mapping, too. */
  ghost predicate Refines(fs: Fold, lower: Fold) {
    forall a, b | IsWindowsName(a) && IsWindowsName(b) && fs(a) == fs(b) :: lower(a) == lower(b)
  }

  predicate IsWindowsName(name: Bytes) {
    IsName(name) && IsWindowsComponent(name)
  }

  lemma PartsAreNames(path: Bytes)
    requires IsWindowsPath(path)
    ensures forall i | 0 <= i < |Split(path)| :: IsWindowsName(Split(path)[i])
  {
    WindowsPathIsNulFree(path);
    SplitNames(path);
  }

  lemma {:induction false} RefinedPrefix(fs: Fold, lower: Fold, a: Path, b: Path)
    requires Refines(fs, lower) && FoldPrefix(fs, a, b)
    requires forall i | 0 <= i < |a| :: IsWindowsName(a[i])
    requires forall i | 0 <= i < |b| :: IsWindowsName(b[i])
    ensures FoldPrefix(lower, a, b)
    decreases |a|
  {
    if a != [] { RefinedPrefix(fs, lower, a[1..], b[1..]); }
  }

  lemma RefinedLists(fs: Fold, lower: Fold, paths: seq<Bytes>)
    requires Refines(fs, lower) && AreWindowsPaths(paths) && HaveNoOverlap(lower, paths)
    ensures HaveNoOverlap(fs, paths)
  {
    forall i, j | 0 <= i < j < |paths| ensures !Overlap(fs, Split(paths[i]), Split(paths[j])) {
      var a, b := Split(paths[i]), Split(paths[j]);
      PartsAreNames(paths[i]);
      PartsAreNames(paths[j]);
      if FoldPrefix(fs, a, b) { RefinedPrefix(fs, lower, a, b); }
      if FoldPrefix(fs, b, a) { RefinedPrefix(fs, lower, b, a); }
    }
  }

  ghost predicate PassesTheCheck(lower: Fold, bs: seq<Binding>) {
    AreWindowsPaths(Paths(bs)) && HaveNoOverlap(lower, Paths(bs))
  }

  /** Two mappings: every list that passes the check with one builds on a file system with the other, if and
      only if the file system's equivalence refines the check's. */
  lemma CheckedListsBuildExactlyWhenRefined(fs: Fold, lower: Fold)
    ensures (forall bs | PassesTheCheck(lower, bs) :: Build(fs, bs).Some?) <==> Refines(fs, lower)
  {
    if Refines(fs, lower) {
      forall bs | PassesTheCheck(lower, bs) ensures Build(fs, bs).Some? {
        RefinedLists(fs, lower, Paths(bs));
        AcceptedPathsAreAccepted(fs, bs);
        AcceptedBuilds(fs, bs);
      }
    } else {
      var a, b :| IsWindowsName(a) && IsWindowsName(b) && fs(a) == fs(b) && lower(a) != lower(b);
      var bs := ConfusedNames(fs, lower, a, b);
    }
  }

  lemma ConfusedNames(fs: Fold, lower: Fold, a: Bytes, b: Bytes) returns (bs: seq<Binding>)
    requires IsWindowsName(a) && IsWindowsName(b) && fs(a) == fs(b) && lower(a) != lower(b)
    ensures PassesTheCheck(lower, bs) && Build(fs, bs).None?
  {
    bs := [Binding(a, [], 0, []), Binding(b, [], 0, [])];
    SplitOneName(a);
    SplitOneName(b);
    var p, q: Path := [a], [b];
    assert PathOf(bs[0]) == p && PathOf(bs[1]) == q && p[1..] == [] && q[1..] == [];
    assert Paths(bs) == [a, b];
    assert !Overlap(lower, p, q) && Overlap(fs, p, q);
    assert forall i | 0 <= i < |bs| :: 0 !in bs[i].path;
    BuildsExactlyWithoutOverlap(fs, bs);
  }

  /** The agreement of the encoders for every list that passes the check with one mapping, on a file system
      with another that refines it. */
  lemma EncodersAgreeOnCheckedLists(fs: Fold, lower: Fold, sha: Sha, bs: seq<Binding>)
    requires PassesTheCheck(lower, bs) && Refines(fs, lower) && AreHonest(sha, bs) && forall c :: 0 !in sha(c)
    ensures Build(fs, bs).Some?
    ensures TreeBytes(sha, Build(fs, bs).value) == Some(BindingBytes(bs)) <==> HasNoAliases(fs, bs)
  {
    RefinedLists(fs, lower, Paths(bs));
    AcceptedPathsAreAccepted(fs, bs);
    EncodersAgreeExactlyWithoutAliases(fs, sha, bs);
  }

  // ----- One directory spelled in two ways -----

  function LowerAscii(name: Bytes): Bytes {
    seq(|name|, i requires 0 <= i < |name| => if 0x41 <= name[i] <= 0x5A then name[i] + 0x20 else name[i])
  }

  /** The bindings "A/x" and "a/y". */
  function TwoSpellings(sha: Sha): seq<Binding> {
    [Binding([0x41, SLASH, 0x78], sha([]), 0, []), Binding([0x61, SLASH, 0x79], sha([]), 0, [])]
  }

  /** Both checks accept "A/x" with "a/y", and on a file system that ignores case the encoders then disagree. */
  lemma TwoSpellingsAreAcceptedAndDisagree(sha: Sha)
    requires forall c :: 0 !in sha(c)
    ensures var bs := TwoSpellings(sha);
      && AreWindowsPaths(Paths(bs)) && HaveNoOverlap(LowerAscii, Paths(bs))
      && Build(LowerAscii, bs).Some?
      && TreeBytes(sha, Build(LowerAscii, bs).value) != Some(BindingBytes(bs))
  {
    var bs := TwoSpellings(sha);
    SpellingsAreAccepted(sha);
    AcceptedPathsAreAccepted(LowerAscii, bs);
    SpellingsAreAliases(sha);
    EncodersAgreeExactlyWithoutAliases(LowerAscii, sha, bs);
  }

  lemma SpellingsAreAccepted(sha: Sha)
    ensures AreWindowsPaths(Paths(TwoSpellings(sha))) && HaveNoOverlap(LowerAscii, Paths(TwoSpellings(sha)))
  {
    var a, b := TwoSpellings(sha)[0].path, TwoSpellings(sha)[1].path;
    SpellingParts(0x41, 0x78);
    SpellingParts(0x61, 0x79);
    assert LowerAscii([0x78])[0] != LowerAscii([0x79])[0];
    assert Split(a)[1..] == [[0x78]] && Split(b)[1..] == [[0x79]];
    assert !FoldPrefix(LowerAscii, Split(a)[1..], Split(b)[1..])
      && !FoldPrefix(LowerAscii, Split(b)[1..], Split(a)[1..]);
    assert !Overlap(LowerAscii, Split(a), Split(b));
  }

  lemma SpellingsAreAliases(sha: Sha)
    ensures !HasNoAliases(LowerAscii, TwoSpellings(sha))
  {
    var bs := TwoSpellings(sha);
    SpellingParts(0x41, 0x78);
    SpellingParts(0x61, 0x79);
    assert LowerAscii([0x41]) == LowerAscii([0x61]);
    var p, q := PathOf(bs[0])[..1], PathOf(bs[1])[..1];
    assert p == [[0x41]] && q == [[0x61]] && p[1..] == [];
    assert SameFold(LowerAscii, p, q) && p[0] != q[0];
  }

  lemma StemOfOne(x: Byte)
    ensures |Stem([x])| <= 1
  {
    var rest: Bytes := [x][1..];
    assert rest == [] && Stem(rest) == [];
  }

  lemma SpellingParts(x: Byte, y: Byte)
    requires (x == 0x41 || x == 0x61) && (y == 0x78 || y == 0x79)
    ensures Split([x, SLASH, y]) == [[x], [y]] && IsWindowsPath([x, SLASH, y])
  {
    SplitOneName([x]);
    SplitOneName([y]);
    SplitAppend([x], [y]);
    assert [x] + [SLASH] + [y] == [x, SLASH, y];
    StemOfOne(x);
    StemOfOne(y);
  }

  // ----- Copying -----

  function CopyFiles(t: Tree, tail: Tree): Tree {
    match t
    case Nil => tail
    case File(n, c, next) => File(n, c, CopyFiles(next, tail))
    case Sub(_, _, next) => CopyFiles(next, tail)
    case Link(_, next) => CopyFiles(next, tail)
  }

  function CopyDirs(t: Tree): Tree
    decreases t, 0
  {
    match t
    case Nil => Nil
    case File(_, _, next) => CopyDirs(next)
    case Sub(n, child, next) => Sub(n, CopyTree(child), CopyDirs(next))
    case Link(_, next) => CopyDirs(next)
  }

  /** A directory's files first, then its directories, as the launcher copies them. */
  function CopyTree(t: Tree): Tree
    decreases t, 1
  {
    CopyFiles(t, CopyDirs(t))
  }

  lemma {:induction false} CopyFilesLists(sha: Sha, t: Tree, tail: Tree, at: Path)
    requires LevelFiles(sha, tail, at) == []
    ensures LevelFiles(sha, CopyFiles(t, tail), at) == LevelFiles(sha, t, at)
    ensures DeepFiles(sha, CopyFiles(t, tail), at) == DeepFiles(sha, tail, at)
    ensures DirsOf(CopyFiles(t, tail), at) == DirsOf(tail, at)
    ensures HasLink(CopyFiles(t, tail)) <==> HasLink(tail)
    decreases t
  {
    match t {
      case Nil =>
      case File(_, _, next) => CopyFilesLists(sha, next, tail, at);
      case Sub(_, _, next) => CopyFilesLists(sha, next, tail, at);
      case Link(_, next) => CopyFilesLists(sha, next, tail, at);
    }
  }

  lemma {:induction false} CopyDirsLists(sha: Sha, t: Tree, at: Path)
    ensures LevelFiles(sha, CopyDirs(t), at) == []
    ensures DeepFiles(sha, CopyDirs(t), at) == DeepFiles(sha, t, at)
    ensures DirsOf(CopyDirs(t), at) == DirsOf(t, at)
    ensures !HasLink(CopyDirs(t))
    decreases t, 0
  {
    match t {
      case Nil =>
      case File(_, _, next) => CopyDirsLists(sha, next, at);
      case Link(_, next) => CopyDirsLists(sha, next, at);
      case Sub(n, child, next) =>
        CopyDirsLists(sha, next, at);
        CopyLists(sha, child, at + [n]);
    }
  }

  lemma {:induction false} CopyLists(sha: Sha, t: Tree, at: Path)
    ensures FilesOf(sha, CopyTree(t), at) == FilesOf(sha, t, at)
    ensures DirsOf(CopyTree(t), at) == DirsOf(t, at)
    ensures !HasLink(CopyTree(t))
    decreases t, 1
  {
    CopyDirsLists(sha, t, at);
    CopyFilesLists(sha, t, CopyDirs(t), at);
  }

  // ----- The presentation -----

  /** The three places on disk; each may be missing. */
  datatype Disk = Disk(source: Option<Tree>, staging: Option<Tree>, presented: Option<Tree>)

  datatype Place = Source | Staging | Presented

  function At(disk: Disk, place: Place): Option<Tree> {
    match place
    case Source => disk.source
    case Staging => disk.staging
    case Presented => disk.presented
  }

  function DigestOf(sha: Sha, t: Tree): Option<Bytes> {
    match TreeBytes(sha, t) case None => None case Some(bytes) => Some(sha(bytes))
  }

  predicate Shows(sha: Sha, place: Option<Tree>, digest: Bytes) {
    place.Some? && DigestOf(sha, place.value) == Some(digest)
  }

  /** How many calls it takes to present: a good root is only looked at, a bad one is deleted first. */
  function Calls(sha: Sha, presented: Option<Tree>, digest: Bytes): nat {
    if presented.None? then 6 else if Shows(sha, presented, digest) then 2 else 7
  }

  /** Nobody else touches the disk. */
  ghost predicate Alone(meddle: nat -> Disk -> Disk) {
    forall k, d :: meddle(k)(d) == d
  }

  /** These calls work. */
  ghost predicate AllWork(works: nat -> bool, from: nat, count: nat) {
    forall k | from <= k < from + count :: works(k)
  }

  lemma WorkSplits(works: nat -> bool, from: nat, first: nat, second: nat)
    ensures AllWork(works, from, first + second) <==>
      AllWork(works, from, first) && AllWork(works, from + first, second)
  {
  }

  /** No link is in the way, and a tree with the digest is there to be presented. */
  predicate IsPresentable(sha: Sha, disk: Disk, digest: Bytes) {
    && (disk.presented.Some? ==> !HasLink(disk.presented.value))
    && (Shows(sha, disk.presented, digest) || Shows(sha, disk.source, digest))
  }

  class Presenter {
    const sha: Sha
    /** What other processes do to the disk before each call, and whether the call itself works. */
    const meddle: nat -> Disk -> Disk
    const works: nat -> bool
    var clock: nat
    var disk: Disk

    constructor (sha: Sha, meddle: nat -> Disk -> Disk, works: nat -> bool, disk: Disk)
      ensures this.sha == sha && this.meddle == meddle && this.works == works && this.disk == disk && clock == 0
    {
      this.sha, this.meddle, this.works, this.disk, clock := sha, meddle, works, disk, 0;
    }

    /** What a call that ends early may leave at the presentation root: what was there, nothing, or a tree that
        shows the digest. */
    ghost predicate IsSafe(was: Option<Tree>, digest: Bytes)
      reads this
    {
      disk.presented == was || disk.presented.None? || Shows(sha, disk.presented, digest)
    }

    method Tick() returns (ok: bool)
      modifies this
      ensures disk == meddle(old(clock))(old(disk)) && ok == works(old(clock)) && clock == old(clock) + 1
    {
      disk, ok, clock := meddle(clock)(disk), works(clock), clock + 1;
    }

    /** Makes sure that the presentation root is there; false stands for an exception. */
    method Present(digest: Bytes) returns (ok: bool)
      modifies this
      ensures Alone(meddle) ==>
        && IsSafe(old(disk).presented, digest)
        && (ok ==> Shows(sha, disk.presented, digest) && clock == old(clock) + Calls(sha, old(disk).presented, digest))
        && (Shows(sha, old(disk).presented, digest) ==> disk.presented == old(disk).presented)
        && (ok <==> IsPresentable(sha, old(disk), digest)
                    && AllWork(works, old(clock), Calls(sha, old(disk).presented, digest)))
    {
      ghost var toClear := if disk.presented.Some? && !Shows(sha, disk.presented, digest) then 2 else 1;
      WorkSplits(works, clock, toClear, 1);
      WorkSplits(works, clock, toClear + 1, 4);
      ok := Clear(digest);
      if !ok { return; }
      ok := Tick();
      if !ok { return; }
      if disk.presented.None? {
        ok := Stage(digest);
      }
    }

    /** Deletes a presentation root that does not show the digest. */
    method Clear(digest: Bytes) returns (ok: bool)
      modifies this
      ensures Alone(meddle) ==>
        var bad := old(disk).presented.Some? && !Shows(sha, old(disk).presented, digest);
        && (ok <==> (old(disk).presented.Some? ==> !HasLink(old(disk).presented.value))
                    && AllWork(works, old(clock), if bad then 2 else 1))
        && disk == (if ok && bad then old(disk).(presented := None) else old(disk))
        && (ok ==> clock == old(clock) + if bad then 2 else 1)
    {
      ok := Tick();
      if !ok { return; }
      if disk.presented.Some? {
        if DigestOf(sha, disk.presented.value).None? { return false; }
        if !Shows(sha, disk.presented, digest) {
          ok := Tick();
          if !ok { return; }
          disk := disk.(presented := None);
        }
      }
    }

    /** Copies the source aside, checks the copy twice and moves it into place. */
    method Stage(digest: Bytes) returns (ok: bool)
      modifies this
      ensures disk.staging.None?
      ensures Alone(meddle) && old(disk).presented.None? ==>
        && (ok <==> Shows(sha, old(disk).source, digest) && AllWork(works, old(clock), 4))
        && IsSafe(None, digest) && (ok ==> Shows(sha, disk.presented, digest) && clock == old(clock) + 4)
    {
      ok := CopyAndMove(digest);
      disk := disk.(staging := None);
    }

    method CopyAndMove(digest: Bytes) returns (ok: bool)
      modifies this
      ensures Alone(meddle) && old(disk).presented.None? ==>
        && (ok <==> Shows(sha, old(disk).source, digest) && AllWork(works, old(clock), 4))
        && IsSafe(None, digest) && (ok ==> Shows(sha, disk.presented, digest) && clock == old(clock) + 4)
    {
      WorkSplits(works, clock, 3, 1);
      ok := CopyAside(digest);
      if !ok { return; }
      var moved := Tick();
      if moved && disk.staging.Some? && disk.presented.None? {
        disk := disk.(presented := disk.staging, staging := None);
        return true;
      }
      return Shows(sha, disk.presented, digest);
    }

    /** Copies the source aside and looks at the copy twice. */
    method CopyAside(digest: Bytes) returns (ok: bool)
      modifies this
      ensures Alone(meddle) ==>
        && disk.presented == old(disk).presented
        && (ok <==> Shows(sha, old(disk).source, digest) && AllWork(works, old(clock), 3))
        && (ok ==> Shows(sha, disk.staging, digest) && clock == old(clock) + 3)
    {
      ok := Tick();
      if !ok || disk.source.None? || HasLink(disk.source.value) { return false; }
      CopyLists(sha, disk.source.value, []);
      disk := disk.(staging := Some(CopyTree(disk.source.value)));
      ok := LookAt(Staging, digest);
      if !ok { return; }
      ok := LookAt(Staging, digest);
    }

    /** The digest of what is at a place is taken, and compared. */
    method LookAt(place: Place, digest: Bytes) returns (ok: bool)
      modifies this
      ensures clock == old(clock) + 1 && (ok ==> Shows(sha, At(disk, place), digest))
      ensures Alone(meddle) ==> disk == old(disk) && (ok <==> works(old(clock)) && Shows(sha, At(disk, place), digest))
    {
      ok := Tick();
      ok := ok && Shows(sha, At(disk, place), digest);
    }

    /** A normal return means that the presented tree has the committed digest at the last look, whatever was
        done to the disk meanwhile. Left alone, a good source is presented exactly when every call on the way
        works and no link is in the way; and whichever fails, what is left at the root is what was there,
        nothing, or a tree with the committed digest. */
    method PrepareImmutableInputs(digest: Bytes) returns (ok: bool)
      modifies this
      ensures ok ==> Shows(sha, disk.presented, digest)
      ensures Alone(meddle) ==>
        && IsSafe(old(disk).presented, digest)
        && (Shows(sha, old(disk).presented, digest) ==> disk.presented == old(disk).presented)
        && (ok <==> Shows(sha, old(disk).source, digest) && IsPresentable(sha, old(disk), digest)
                    && AllWork(works, old(clock), 2 + Calls(sha, old(disk).presented, digest)))
    {
      WorkSplits(works, clock, 1, 1 + Calls(sha, disk.presented, digest));
      ok := LookAt(Source, digest);
      if !ok { return; }
      ok := PresentAndLook(digest);
    }

    method PresentAndLook(digest: Bytes) returns (ok: bool)
      modifies this
      ensures ok ==> Shows(sha, disk.presented, digest)
      ensures Alone(meddle) ==>
        && IsSafe(old(disk).presented, digest)
        && (Shows(sha, old(disk).presented, digest) ==> disk.presented == old(disk).presented)
        && (ok <==> IsPresentable(sha, old(disk), digest)
                    && AllWork(works, old(clock), 1 + Calls(sha, old(disk).presented, digest)))
    {
      WorkSplits(works, clock, Calls(sha, disk.presented, digest), 1);
      ok := Present(digest);
      if !ok { return; }
      ok := LookAt(Presented, digest);
    }
  }

  /** What the committed digest then means: the presented tree is exactly the committed one. */
  lemma PresentedTreeIsTheCommittedOne(sha: Sha, presented: Option<Tree>, bs: seq<Binding>)
    requires Shows(sha, presented, sha(BindingBytes(bs))) && IsNamed(presented.value)
    requires AreHonest(sha, bs) && IsInjectiveDigest(sha) && forall i | 0 <= i < |bs| :: 0 !in bs[i].path
    ensures !HasLink(presented.value) && HoldsExactly(presented.value, bs)
  {
    EqualBytesMeanTheCommittedTree(sha, presented.value, bs);
  }

  /** And the other way round: a tree that holds exactly the accepted bindings is let through. */
  lemma CommittedTreeShowsTheDigest(fold: Fold, sha: Sha, t: Tree, bs: seq<Binding>)
    requires IsAccepted(fold, bs) && AreHonest(sha, bs) && IsClean(fold, t) && HoldsExactly(t, bs)
    ensures Shows(sha, Some(t), sha(BindingBytes(bs)))
  {
    ExactTreeHasTheBytes(fold, sha, t, bs);
  }
}
