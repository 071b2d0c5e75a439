/** Byte order, path text and the canonical bytes of an input tree. */
module Canonical {
  import opened Types

  const SLASH: Byte := 0x2F

  // ----- Bytewise order -----

  predicate Less(a: Bytes, b: Bytes) {
    b != [] && (a == [] || a[0] < b[0] || (a[0] == b[0] && Less(a[1..], b[1..])))
  }

  lemma {:induction false} LessIsIrreflexive(a: Bytes)
    ensures !Less(a, a)
  {
    if a != [] { LessIsIrreflexive(a[1..]); }
  }

  lemma {:induction false} LessIsTotal(a: Bytes, b: Bytes)
    ensures a == b || Less(a, b) || Less(b, a)
    ensures !(Less(a, b) && Less(b, a)) && !Less(a, a)
    decreases |a|
  {
    LessIsIrreflexive(a);
    if a != [] && b != [] {
      LessIsTotal(a[1..], b[1..]);
      assert a == [a[0]] + a[1..] && b == [b[0]] + b[1..];
    }
  }

  lemma {:induction false} LessIsTransitive(a: Bytes, b: Bytes, c: Bytes)
    requires Less(a, b) && Less(b, c)
    ensures Less(a, c)
    decreases |a|
  {
    if a != [] && a[0] == b[0] == c[0] { LessIsTransitive(a[1..], b[1..], c[1..]); }
  }

  lemma {:induction false} LessAfterCommon(a: Bytes, b: Bytes, k: nat)
    requires k <= |a| && k <= |b| && a[..k] == b[..k]
    ensures Less(a, b) <==> Less(a[k..], b[k..])
    decreases k
  {
    if k == 0 {
      assert a[0..] == a && b[0..] == b;
    } else {
      assert a[..k][0] == b[..k][0];
      assert a[1..][..k - 1] == a[..k][1..] && b[1..][..k - 1] == b[..k][1..];
      LessAfterCommon(a[1..], b[1..], k - 1);
      assert a[1..][k - 1..] == a[k..] && b[1..][k - 1..] == b[k..];
    }
  }

  /** The launcher's comparison is the sign of the bytewise order. */
  method Utf8OrdinalCompare(left: Bytes, right: Bytes) returns (r: int)
    ensures r < 0 <==> Less(left, right)
    ensures r == 0 <==> left == right
    ensures r > 0 <==> Less(right, left)
  {
    var length := if |left| < |right| then |left| else |right|;
    var index := 0;
    while index < length
      invariant 0 <= index <= length
      invariant left[..index] == right[..index]
    {
      if left[index] != right[index] {
        LessAfterCommon(left, right, index);
        LessAfterCommon(right, left, index);
        return if left[index] < right[index] then -1 else 1;
      }
      index := index + 1;
    }
    LessAfterCommon(left, right, index);
    LessAfterCommon(right, left, index);
    return |left| - |right|;
  }

  // ----- Paths -----

  /** The components between the slashes of a path. */
  function Split(text: Bytes): (parts: seq<Bytes>)
    ensures |parts| > 0
  {
    if text == [] then [[]]
    else
      var rest := Split(text[1..]);
      if text[0] == SLASH then [[]] + rest else [[text[0]] + rest[0]] + rest[1..]
  }

  function Join(parts: seq<Bytes>): Bytes
    requires |parts| > 0
  {
    if |parts| == 1 then parts[0] else parts[0] + [SLASH] + Join(parts[1..])
  }

  predicate AreNames(parts: seq<Bytes>) {
    forall i | 0 <= i < |parts| :: SLASH !in parts[i] && 0 !in parts[i]
  }

  lemma {:induction false} JoinSplit(text: Bytes)
    ensures Join(Split(text)) == text
  {
    if text != [] {
      JoinSplit(text[1..]);
      var rest := Split(text[1..]);
      var parts := Split(text);
      if text[0] == SLASH {
        assert parts[1..] == rest;
      } else if |rest| > 1 {
        assert parts[1..] == rest[1..];
      }
      assert text == [text[0]] + text[1..];
    }
  }

  lemma {:induction false} SplitNames(text: Bytes)
    requires 0 !in text
    ensures AreNames(Split(text))
  {
    if text != [] {
      SplitNames(text[1..]);
    }
  }

  lemma {:induction false} SplitOneName(name: Bytes)
    requires SLASH !in name
    ensures Split(name) == [name]
  {
    if name != [] {
      SplitOneName(name[1..]);
      assert [name[0]] + name[1..] == name;
    }
  }

  lemma {:induction false} SplitAppend(a: Bytes, b: Bytes)
    ensures Split(a + [SLASH] + b) == Split(a) + Split(b)
    decreases |a|
  {
    var all := a + [SLASH] + b;
    if a == [] {
      assert all[0] == SLASH && all[1..] == b;
    } else {
      assert all[0] == a[0] && all[1..] == a[1..] + [SLASH] + b;
      SplitAppend(a[1..], b);
    }
  }

  lemma {:induction false} SplitJoin(parts: seq<Bytes>)
    requires |parts| > 0 && AreNames(parts)
    ensures Split(Join(parts)) == parts
  {
    SplitOneName(parts[0]);
    if |parts| == 1 {
      assert parts == [parts[0]];
    } else {
      SplitJoin(parts[1..]);
      SplitAppend(parts[0], Join(parts[1..]));
      assert parts == [parts[0]] + parts[1..];
    }
  }

  lemma {:induction false} JoinIsNulFree(parts: seq<Bytes>)
    requires |parts| > 0 && AreNames(parts)
    ensures 0 !in Join(parts)
  {
    if |parts| > 1 { JoinIsNulFree(parts[1..]); }
  }

  /** Different component lists are different texts. */
  lemma JoinIsInjective(a: seq<Bytes>, b: seq<Bytes>)
    requires |a| > 0 && |b| > 0 && AreNames(a) && AreNames(b)
    ensures Join(a) == Join(b) <==> a == b
  {
    SplitJoin(a);
    SplitJoin(b);
  }

  // ----- Decimal -----

  function Decimal(n: nat): Bytes {
    if n < 10 then [(0x30 + n) as Byte] else Decimal(n / 10) + [(0x30 + n % 10) as Byte]
  }

  function DecimalValue(digits: Bytes): int {
    if digits == [] then 0 else 10 * DecimalValue(digits[..|digits| - 1]) + digits[|digits| - 1] - 0x30
  }

  lemma {:induction false} DecimalReadsBack(n: nat)
    ensures DecimalValue(Decimal(n)) == n && 0 !in Decimal(n)
  {
    if n >= 10 {
      DecimalReadsBack(n / 10);
      assert Decimal(n)[..|Decimal(n)| - 1] == Decimal(n / 10);
    } else {
      assert Decimal(n)[..0] == [];
    }
  }

  // ----- Entries and their encoding -----

  datatype Entry = D(path: Bytes) | F(path: Bytes, digest: Bytes, length: nat)

  function Ascii(s: string): Bytes {
    seq(|s|, i requires 0 <= i < |s| => if s[i] as int < 0x100 then s[i] as int else 0)
  }

  const HEADER: Bytes := Ascii("windows-immutable-input-tree-v2")

  function Tokens(e: Entry): seq<Bytes> {
    match e
    case D(path) => [Ascii("D"), path]
    case F(path, digest, length) => [Ascii("F"), path, digest, Decimal(length)]
  }

  function AllTokens(entries: seq<Entry>): seq<Bytes> {
    if entries == [] then [] else Tokens(entries[0]) + AllTokens(entries[1..])
  }

  /** Every token followed by a NUL. */
  function Terminated(tokens: seq<Bytes>): Bytes {
    if tokens == [] then [] else tokens[0] + [0] + Terminated(tokens[1..])
  }

  function Encode(dirs: seq<Entry>, files: seq<Entry>): Bytes {
    Terminated([HEADER] + AllTokens(dirs + files))
  }

  predicate IsNulFree(e: Entry) {
    0 !in e.path && (e.F? ==> 0 !in e.digest)
  }

  predicate AreNulFree(entries: seq<Entry>) {
    forall i | 0 <= i < |entries| :: IsNulFree(entries[i])
  }

  predicate AreTokens(tokens: seq<Bytes>) {
    forall i | 0 <= i < |tokens| :: 0 !in tokens[i]
  }

  lemma {:induction false} FirstTokenIsFixed(a: Bytes, b: Bytes, restA: Bytes, restB: Bytes)
    requires 0 !in a && 0 !in b && a + [0] + restA == b + [0] + restB
    ensures a == b && restA == restB
  {
    var s := a + [0] + restA;
    assert s[|a|] == 0 && forall i | 0 <= i < |a| :: s[i] == a[i];
    assert s[|b|] == 0 && forall i | 0 <= i < |b| :: s[i] == b[i];
    assert |a| == |b|;
    assert a == s[..|a|] && b == s[..|b|];
    assert restA == s[|a| + 1..] && restB == s[|b| + 1..];
  }

  lemma {:induction false} TerminatedIsInjective(a: seq<Bytes>, b: seq<Bytes>)
    requires AreTokens(a) && AreTokens(b) && Terminated(a) == Terminated(b)
    ensures a == b
    decreases |a|
  {
    if a != [] && b != [] {
      FirstTokenIsFixed(a[0], b[0], Terminated(a[1..]), Terminated(b[1..]));
      TerminatedIsInjective(a[1..], b[1..]);
      assert a == [a[0]] + a[1..] && b == [b[0]] + b[1..];
    }
  }

  lemma {:induction false} TokensAreNulFree(entries: seq<Entry>)
    requires AreNulFree(entries)
    ensures AreTokens(AllTokens(entries))
  {
    if entries != [] {
      TokensAreNulFree(entries[1..]);
      var e := entries[0];
      assert IsNulFree(e);
      if e.F? { DecimalReadsBack(e.length); }
      assert AreTokens(Tokens(e));
    }
  }

  lemma TokensDetermineEntry(a: Entry, b: Entry, restA: seq<Bytes>, restB: seq<Bytes>)
    requires Tokens(a) + restA == Tokens(b) + restB
    ensures a == b && restA == restB
  {
    var s, t := Tokens(a) + restA, Tokens(b) + restB;
    assert s[0] == Tokens(a)[0] && t[0] == Tokens(b)[0];
    assert Ascii("D")[0] != Ascii("F")[0];
    assert a.D? <==> b.D?;
    assert s[1] == a.path && t[1] == b.path;
    if a.F? {
      assert s[2] == a.digest && t[2] == b.digest;
      assert s[3] == Decimal(a.length) && t[3] == Decimal(b.length);
      DecimalReadsBack(a.length);
      DecimalReadsBack(b.length);
    }
    assert restA == s[|Tokens(a)|..] && restB == t[|Tokens(b)|..];
  }

  lemma {:induction false} AllTokensIsInjective(a: seq<Entry>, b: seq<Entry>)
    requires AllTokens(a) == AllTokens(b)
    ensures a == b
    decreases |a|
  {
    if a != [] && b != [] {
      TokensDetermineEntry(a[0], b[0], AllTokens(a[1..]), AllTokens(b[1..]));
      AllTokensIsInjective(a[1..], b[1..]);
      assert a == [a[0]] + a[1..] && b == [b[0]] + b[1..];
    }
  }

  predicate AreDirs(entries: seq<Entry>) {
    forall i | 0 <= i < |entries| :: entries[i].D?
  }

  predicate AreFiles(entries: seq<Entry>) {
    forall i | 0 <= i < |entries| :: entries[i].F?
  }

  lemma HeaderIsNulFree()
    ensures 0 !in HEADER
  {
  }

  /** The encoding is uniquely decodable: equal bytes mean equal directory and file lists. */
  lemma EncodeIsInjective(dirs: seq<Entry>, files: seq<Entry>, dirs2: seq<Entry>, files2: seq<Entry>)
    requires AreNulFree(dirs + files) && AreNulFree(dirs2 + files2)
    requires AreDirs(dirs) && AreFiles(files) && AreDirs(dirs2) && AreFiles(files2)
    ensures Encode(dirs, files) == Encode(dirs2, files2) <==> dirs == dirs2 && files == files2
  {
    if Encode(dirs, files) == Encode(dirs2, files2) {
      var a, b := AllTokens(dirs + files), AllTokens(dirs2 + files2);
      HeaderIsNulFree();
      TokensAreNulFree(dirs + files);
      TokensAreNulFree(dirs2 + files2);
      TerminatedIsInjective([HEADER] + a, [HEADER] + b);
      assert a == ([HEADER] + a)[1..] && b == ([HEADER] + b)[1..];
      AllTokensIsInjective(dirs + files, dirs2 + files2);
      KindsSplit(dirs, files, dirs2, files2);
    }
  }

  lemma KindsSplit(dirs: seq<Entry>, files: seq<Entry>, dirs2: seq<Entry>, files2: seq<Entry>)
    requires AreDirs(dirs) && AreFiles(files) && AreDirs(dirs2) && AreFiles(files2)
    requires dirs + files == dirs2 + files2
    ensures dirs == dirs2 && files == files2
  {
    var s := dirs + files;
    assert forall i | 0 <= i < |s| :: s[i].D? <==> i < |dirs|;
    assert forall i | 0 <= i < |s| :: s[i].D? <==> i < |dirs2|;
    assert |dirs| < |s| ==> s[|dirs|].F?;
    assert |dirs2| < |s| ==> s[|dirs2|].F?;
    assert |dirs| == |dirs2|;
    assert dirs == s[..|dirs|] && dirs2 == s[..|dirs2|];
    assert files == s[|dirs|..] && files2 == s[|dirs2|..];
  }

  // ----- Sorted lists of entries -----

  predicate IsSorted(s: seq<Entry>) {
    forall i, j | 0 <= i < j < |s| :: Less(s[i].path, s[j].path)
  }

  /** A sorted list is determined by what it holds. */
  lemma {:induction false} SortedIsUnique(a: seq<Entry>, b: seq<Entry>)
    requires IsSorted(a) && IsSorted(b) && forall e :: e in a <==> e in b
    ensures a == b
    decreases |a|
  {
    NonEmptyHasMember(a);
    NonEmptyHasMember(b);
    if a != [] && b != [] {
      assert a[0] in b;
      assert b[0] in a;
      var i :| 0 <= i < |b| && b[i] == a[0];
      var j :| 0 <= j < |a| && a[j] == b[0];
      LessIsTotal(a[0].path, b[0].path);
      assert i == 0;
      forall e ensures e in a[1..] <==> e in b[1..] {
        TailMembers(a, e);
        TailMembers(b, e);
      }
      SortedIsUnique(a[1..], b[1..]);
      assert a == [a[0]] + a[1..] && b == [b[0]] + b[1..];
    }
  }

  lemma NonEmptyHasMember(s: seq<Entry>)
    ensures s == [] || exists e :: e in s
  {
    if s != [] { assert s[0] in s; }
  }

  lemma TailMembers(s: seq<Entry>, e: Entry)
    requires IsSorted(s) && s != []
    ensures e in s[1..] <==> e in s && e != s[0]
  {
    LessIsTotal(s[0].path, s[0].path);
    if e in s && e != s[0] {
      var i :| 0 <= i < |s| && s[i] == e;
      assert s[1..][i - 1] == e;
    }
  }

  /** Insertion into a sorted list, as an ordered set does it: an entry that is there already is dropped. */
  function InsertNew(e: Entry, s: seq<Entry>): seq<Entry> {
    if s == [] then [e]
    else if e.path == s[0].path then s
    else if Less(e.path, s[0].path) then [e] + s
    else [s[0]] + InsertNew(e, s[1..])
  }

  predicate HasPath(s: seq<Entry>, path: Bytes) {
    exists i :: 0 <= i < |s| && s[i].path == path
  }

  lemma {:induction false} InsertNewMembers(e: Entry, s: seq<Entry>, x: Entry)
    ensures x in InsertNew(e, s) <==> x in s || (x == e && !HasPath(s, e.path))
    requires IsSorted(s)
    decreases |s|
  {
    if s != [] {
      if e.path == s[0].path {
      } else if Less(e.path, s[0].path) {
        forall i | 0 <= i < |s| ensures s[i].path != e.path {
          LessIsTotal(e.path, s[0].path);
          LessIsTotal(e.path, s[i].path);
          if i > 0 { LessIsTransitive(e.path, s[0].path, s[i].path); }
        }
      } else {
        InsertNewMembers(e, s[1..], x);
        assert s == [s[0]] + s[1..];
        assert HasPath(s, e.path) <==> HasPath(s[1..], e.path) by {
          if i :| 0 <= i < |s| && s[i].path == e.path { assert s[1..][i - 1].path == e.path; }
          if i :| 0 <= i < |s[1..]| && s[1..][i].path == e.path { assert s[i + 1].path == e.path; }
        }
      }
    }
  }

  lemma {:induction false} InsertNewSorted(e: Entry, s: seq<Entry>)
    requires IsSorted(s)
    ensures IsSorted(InsertNew(e, s))
    decreases |s|
  {
    if s != [] && e.path != s[0].path {
      var r := InsertNew(e, s);
      if Less(e.path, s[0].path) {
        forall i, j | 0 <= i < j < |r| ensures Less(r[i].path, r[j].path) {
          if i == 0 && j > 1 { LessIsTransitive(e.path, s[0].path, s[j - 1].path); }
        }
      } else {
        var tail := InsertNew(e, s[1..]);
        InsertNewSorted(e, s[1..]);
        forall k | 0 <= k < |tail| ensures Less(s[0].path, tail[k].path) {
          InsertNewMembers(e, s[1..], tail[k]);
          LessIsTotal(e.path, s[0].path);
          assert tail[k] in tail;
        }
        SortedCons(s[0], tail);
      }
    }
  }

  lemma SortedCons(e: Entry, tail: seq<Entry>)
    requires IsSorted(tail) && forall k | 0 <= k < |tail| :: Less(e.path, tail[k].path)
    ensures IsSorted([e] + tail)
  {
  }

  /** Insertion that keeps everything, after entries of the same path. */
  function Insert(e: Entry, s: seq<Entry>): seq<Entry> {
    if s == [] then [e] else if Less(e.path, s[0].path) then [e] + s else [s[0]] + Insert(e, s[1..])
  }

  function Sort(s: seq<Entry>): seq<Entry> {
    if s == [] then [] else Insert(s[|s| - 1], Sort(s[..|s| - 1]))
  }

  predicate HasDistinctPaths(s: seq<Entry>) {
    forall i, j | 0 <= i < j < |s| :: s[i].path != s[j].path
  }

  lemma {:induction false} InsertMembers(e: Entry, s: seq<Entry>, x: Entry)
    ensures x in Insert(e, s) <==> x in s || x == e
  {
    if s != [] {
      InsertMembers(e, s[1..], x);
      assert s == [s[0]] + s[1..];
    }
  }

  lemma {:induction false} SortMembers(s: seq<Entry>, x: Entry)
    ensures x in Sort(s) <==> x in s
  {
    if s != [] {
      SortMembers(s[..|s| - 1], x);
      InsertMembers(s[|s| - 1], Sort(s[..|s| - 1]), x);
      assert s == s[..|s| - 1] + [s[|s| - 1]];
    }
  }

  lemma {:induction false} InsertOfNew(e: Entry, s: seq<Entry>)
    requires !HasPath(s, e.path)
    ensures Insert(e, s) == InsertNew(e, s)
  {
    if s != [] {
      assert forall i | 0 <= i < |s[1..]| :: s[1..][i] == s[i + 1];
      assert !HasPath(s[1..], e.path);
      InsertOfNew(e, s[1..]);
      assert s[0].path != e.path;
    }
  }

  /** Sorting a list of distinct paths gives a sorted list. */
  lemma {:induction false} SortIsSorted(s: seq<Entry>)
    requires HasDistinctPaths(s)
    ensures IsSorted(Sort(s))
  {
    if s != [] {
      var init, e := s[..|s| - 1], s[|s| - 1];
      SortIsSorted(init);
      forall i | 0 <= i < |Sort(init)| ensures Sort(init)[i].path != e.path {
        SortMembers(init, Sort(init)[i]);
        assert Sort(init)[i] in Sort(init);
      }
      InsertOfNew(e, Sort(init));
      InsertNewSorted(e, Sort(init));
    }
  }

  lemma {:induction false} TerminatedAppend(a: seq<Bytes>, b: seq<Bytes>)
    ensures Terminated(a + b) == Terminated(a) + Terminated(b)
    decreases |a|
  {
    if a == [] {
      assert a + b == b;
    } else {
      assert (a + b)[0] == a[0] && (a + b)[1..] == a[1..] + b;
      TerminatedAppend(a[1..], b);
    }
  }

  lemma {:induction false} AllTokensAppend(a: seq<Entry>, b: seq<Entry>)
    ensures AllTokens(a + b) == AllTokens(a) + AllTokens(b)
    decreases |a|
  {
    if a == [] {
      assert a + b == b;
    } else {
      assert (a + b)[0] == a[0] && (a + b)[1..] == a[1..] + b;
      AllTokensAppend(a[1..], b);
    }
  }

  method AppendRecord(buffer: Bytes, e: Entry) returns (bytes: Bytes)
    ensures bytes == buffer + Terminated(Tokens(e))
  {
    match e {
      case D(path) =>
        bytes := AppendField(buffer, Ascii("D"));
        bytes := AppendField(bytes, path);
      case F(path, digest, length) =>
        bytes := AppendField(buffer, Ascii("F"));
        bytes := AppendField(bytes, path);
        bytes := AppendField(bytes, digest);
        bytes := AppendField(bytes, Decimal(length));
    }
    RecordIs(e);
  }

  method AppendField(buffer: Bytes, field: Bytes) returns (bytes: Bytes)
    ensures bytes == buffer + (field + [0])
  {
    bytes := buffer + field + [0];
  }

  /** Appends the records of the entries to a byte buffer, one field and its NUL at a time. */
  method AppendRecords(buffer: Bytes, entries: seq<Entry>) returns (bytes: Bytes)
    ensures bytes == buffer + Terminated(AllTokens(entries))
  {
    bytes := buffer;
    var i := 0;
    while i < |entries|
      invariant 0 <= i <= |entries|
      invariant bytes == buffer + Terminated(AllTokens(entries[..i]))
    {
      bytes := AppendRecord(bytes, entries[i]);
      OneMoreRecord(entries, i);
      Regroup(buffer, Terminated(AllTokens(entries[..i])), Terminated(Tokens(entries[i])));
      i := i + 1;
    }
    assert entries[..i] == entries;
  }

  lemma TerminatedCons(token: Bytes, rest: seq<Bytes>)
    ensures Terminated([token] + rest) == (token + [0]) + Terminated(rest)
  {
    assert ([token] + rest)[1..] == rest;
  }

  lemma RecordIs(e: Entry)
    ensures e.D? ==> Terminated(Tokens(e)) == (Ascii("D") + [0]) + (e.path + [0])
    ensures e.F? ==>
      Terminated(Tokens(e)) == (Ascii("F") + [0]) + ((e.path + [0]) + ((e.digest + [0]) + (Decimal(e.length) + [0])))
  {
    if e.D? {
      TerminatedCons(Ascii("D"), [e.path]);
      TerminatedCons(e.path, []);
      assert Tokens(e) == [Ascii("D")] + [e.path];
    } else {
      TerminatedCons(Ascii("F"), [e.path, e.digest, Decimal(e.length)]);
      TerminatedCons(e.path, [e.digest, Decimal(e.length)]);
      TerminatedCons(e.digest, [Decimal(e.length)]);
      TerminatedCons(Decimal(e.length), []);
      assert Tokens(e) == [Ascii("F")] + [e.path, e.digest, Decimal(e.length)];
      assert [e.path, e.digest, Decimal(e.length)] == [e.path] + [e.digest, Decimal(e.length)];
      assert [e.digest, Decimal(e.length)] == [e.digest] + [Decimal(e.length)];
    }
  }

  lemma Regroup(a: Bytes, b: Bytes, c: Bytes)
    ensures (a + b) + c == a + (b + c)
  {
  }

  lemma OneMoreRecord(entries: seq<Entry>, i: nat)
    requires i < |entries|
    ensures Terminated(AllTokens(entries[..i + 1])) ==
      Terminated(AllTokens(entries[..i])) + Terminated(Tokens(entries[i]))
  {
    assert entries[..i + 1] == entries[..i] + [entries[i]];
    AllTokensAppend(entries[..i], [entries[i]]);
    assert AllTokens([entries[i]]) == Tokens(entries[i]);
    TerminatedAppend(AllTokens(entries[..i]), Tokens(entries[i]));
  }

  lemma EncodeIsConcatenation(dirs: seq<Entry>, files: seq<Entry>)
    ensures Encode(dirs, files) == HEADER + [0] + Terminated(AllTokens(dirs)) + Terminated(AllTokens(files))
  {
    AllTokensAppend(dirs, files);
    TerminatedCons(HEADER, AllTokens(dirs + files));
    TerminatedAppend(AllTokens(dirs), AllTokens(files));
    Regroup(HEADER + [0], Terminated(AllTokens(dirs)), Terminated(AllTokens(files)));
  }

  /** Header, directory records, file records. */
  method WriteTree(dirs: seq<Entry>, files: seq<Entry>) returns (bytes: Bytes)
    ensures bytes == Encode(dirs, files)
  {
    bytes := AppendField([], HEADER);
    bytes := AppendRecords(bytes, dirs);
    bytes := AppendRecords(bytes, files);
    EncodeIsConcatenation(dirs, files);
  }
}
