/** The Runtime's environment file: the deployer rewrites two paths in it as text, the
    Runtime later parses it. The two were written separately and must agree.
 */
module EnvFile {
  import opened Types

  type Text = string

  const LAUNCHER_KEY: Text := "ORDIVON_WINDOWS_LAUNCHER_PATH"
  const BROKER_KEY: Text := "ORDIVON_WINDOWS_PRIVILEGED_BROKER_PATH"

  datatype Result<+T> = Ok(value: T) | Err(error: Failure)
  datatype Reason = NotAnAssignment | UnsupportedKey | BearerSecret | ContainsNul | DuplicateKey
  datatype Failure = BadLine(reason: Reason, line: nat) | PathsMissing

  // -------------------------------------------------------------- Rust's `str`

  /** `str::lines`: cut at every line feed, which takes one carriage return before it
      along; a carriage return at the very end stays. */
  function Lines(text: Text): seq<Text>
    decreases |text|
  {
    if text == [] then []
    else
      var cut := LineLength(text);
      if cut == |text| then [text]
      else [DropOneReturn(text[..cut])] + Lines(text[cut + 1..])
  }

  function LineLength(text: Text): (n: nat)
    ensures n <= |text| && (n < |text| ==> text[n] == '\n')
    ensures '\n' !in text[..n]
  {
    if text == [] || text[0] == '\n' then 0
    else
      var n := LineLength(text[1..]);
      assert text[..n + 1] == [text[0]] + text[1..][..n];
      n + 1
  }

  function DropOneReturn(line: Text): Text {
    if line != [] && line[|line| - 1] == '\r' then line[..|line| - 1] else line
  }

  /** `trim_end_matches('\r')`. */
  function DropReturns(line: Text): Text {
    if line != [] && line[|line| - 1] == '\r' then DropReturns(line[..|line| - 1]) else line
  }

  /** Unicode White_Space, which `str::trim` removes at both ends. */
  predicate IsSpace(c: char) {
    IsWhiteSpaceCode(c as int)
  }

  function TrimStart(s: Text): Text {
    if s != [] && IsSpace(s[0]) then TrimStart(s[1..]) else s
  }

  function TrimEnd(s: Text): Text {
    if s != [] && IsSpace(s[|s| - 1]) then TrimEnd(s[..|s| - 1]) else s
  }

  function Trim(s: Text): Text {
    TrimEnd(TrimStart(s))
  }

  predicate IsTrimmed(s: Text) {
    s == [] || (!IsSpace(s[0]) && !IsSpace(s[|s| - 1]))
  }

  /** Where `split_once('=')` cuts; the length if there is no such sign. */
  function EqualsAt(line: Text): (n: nat)
    ensures n <= |line| && '=' !in line[..n]
    ensures n < |line| ==> line[n] == '='
  {
    if line == [] || line[0] == '=' then 0
    else
      var n := EqualsAt(line[1..]);
      assert line[..n + 1] == [line[0]] + line[1..][..n];
      n + 1
  }

  predicate StartsWith(s: Text, prefix: Text) {
    |prefix| <= |s| && s[..|prefix|] == prefix
  }

  // ---------------------------------------------------------------- the parser

  predicate IsKeyChar(c: char) {
    c == '_' || 'A' <= c <= 'Z' || '0' <= c <= '9'
  }

  predicate IsSupportedKey(name: Text) {
    && name != [] && (forall i :: 0 <= i < |name| ==> IsKeyChar(name[i]))
    && !('0' <= name[0] <= '9')
    && (name == "RUST_LOG" || StartsWith(name, "ORDIVON_"))
  }

  /** What one line of the file means. */
  datatype Entry = Skipped | Assignment(name: Text, value: Text) | Refused(reason: Reason)

  function EntryOf(raw: Text): Entry {
    Meaning(Trim(raw))
  }

  function Meaning(line: Text): Entry {
    if line == [] || line[0] == '#' then Skipped
    else if EqualsAt(line) == |line| then Refused(NotAnAssignment)
    else
      var name := Trim(line[..EqualsAt(line)]);
      var value := Trim(line[EqualsAt(line) + 1..]);
      if !IsSupportedKey(name) then Refused(UnsupportedKey)
      else if name == "ORDIVON_BEARER_TOKEN" || name == "ORDIVON_REMOTE_BEARER_TOKEN" then Refused(BearerSecret)
      else if '\0' in value then Refused(ContainsNul)
      else Assignment(name, value)
  }

  /** The map after entries `from..` are added to `values`. */
  function Collect(entries: seq<Entry>, from: nat, values: map<Text, Text>): Result<map<Text, Text>>
    requires from <= |entries|
    decreases |entries| - from
  {
    if from == |entries| then Ok(values)
    else match entries[from]
      case Skipped => Collect(entries, from + 1, values)
      case Refused(reason) => Err(BadLine(reason, from + 1))
      case Assignment(name, value) =>
        if name in values then Err(BadLine(DuplicateKey, from + 1))
        else Collect(entries, from + 1, values[name := value])
  }

  function Entries(lines: seq<Text>): seq<Entry> {
    seq(|lines|, i requires 0 <= i < |lines| => EntryOf(lines[i]))
  }

  /** The map after lines `from..` are added to `values`. */
  function ParseLines(lines: seq<Text>, from: nat, values: map<Text, Text>): Result<map<Text, Text>>
    requires from <= |lines|
  {
    Collect(Entries(lines), from, values)
  }

  function Parse(text: Text): Result<map<Text, Text>> {
    ParseLines(Lines(text), 0, map[])
  }

  method ParseRuntimeEnvText(text: Text) returns (result: Result<map<Text, Text>>)
    ensures result == Parse(text)
  {
    var values: map<Text, Text> := map[];
    var lines := Lines(text);
    for index := 0 to |lines|
      invariant ParseLines(lines, index, values) == Parse(text)
    {
      match EntryOf(lines[index]) {
        case Skipped =>
        case Refused(reason) => return Err(BadLine(reason, index + 1));
        case Assignment(name, value) =>
          if name in values {
            return Err(BadLine(DuplicateKey, index + 1));
          }
          values := values[name := value];
      }
    }
    return Ok(values);
  }

  // -------------------------------------------------------------- the rewriter

  function RewriteLine(raw: Text, launcher: Text, broker: Text): Text {
    var line := DropReturns(raw);
    if StartsWith(line, LAUNCHER_KEY + "=") then LAUNCHER_KEY + "=" + launcher
    else if StartsWith(line, BROKER_KEY + "=") then BROKER_KEY + "=" + broker
    else line
  }

  predicate Names(raw: Text, key: Text) {
    StartsWith(DropReturns(raw), key + "=")
  }

  predicate ContainsCrLf(text: Text) {
    exists i :: 0 <= i < |text| - 1 && text[i] == '\r' && text[i + 1] == '\n'
  }

  function Newline(text: Text): Text {
    if ContainsCrLf(text) then "\r\n" else "\n"
  }

  /** Every line followed by the newline, as joining and appending one more gives. */
  function Terminated(lines: seq<Text>, newline: Text): Text {
    if lines == [] then [] else lines[0] + newline + Terminated(lines[1..], newline)
  }

  /** `output.join(newline) + newline`. */
  function Joined(lines: seq<Text>, newline: Text): Text {
    if lines == [] then newline else Terminated(lines, newline)
  }

  function RewriteAll(lines: seq<Text>, launcher: Text, broker: Text): seq<Text> {
    seq(|lines|, i requires 0 <= i < |lines| => RewriteLine(lines[i], launcher, broker))
  }

  predicate SomeNames(lines: seq<Text>, key: Text) {
    exists i :: 0 <= i < |lines| && Names(lines[i], key)
  }

  function Rewrite(text: Text, launcher: Text, broker: Text): Result<Text> {
    var lines := Lines(text);
    if SomeNames(lines, LAUNCHER_KEY) && SomeNames(lines, BROKER_KEY) then
      Ok(Joined(RewriteAll(lines, launcher, broker), Newline(text)))
    else Err(PathsMissing)
  }

  method ReplaceEnvReleasePaths(text: Text, launcher: Text, broker: Text) returns (result: Result<Text>)
    ensures result == Rewrite(text, launcher, broker)
  {
    var lines := Lines(text);
    var output: seq<Text> := [];
    var launcherSeen, brokerSeen := false, false;
    for i := 0 to |lines|
      invariant output == RewriteAll(lines[..i], launcher, broker)
      invariant launcherSeen <==> SomeNames(lines[..i], LAUNCHER_KEY)
      invariant brokerSeen <==> SomeNames(lines[..i], BROKER_KEY)
    {
      OneMoreLine(lines, i, launcher, broker);
      KeysDiffer(lines[i]);
      var line := DropReturns(lines[i]);
      if StartsWith(line, LAUNCHER_KEY + "=") {
        output := output + [LAUNCHER_KEY + "=" + launcher];
        launcherSeen := true;
      } else if StartsWith(line, BROKER_KEY + "=") {
        output := output + [BROKER_KEY + "=" + broker];
        brokerSeen := true;
      } else {
        output := output + [line];
      }
    }
    assert lines[..|lines|] == lines;
    if !launcherSeen || !brokerSeen {
      return Err(PathsMissing);
    }
    return Ok(Joined(output, Newline(text)));
  }

  lemma OneMoreLine(lines: seq<Text>, i: nat, launcher: Text, broker: Text)
    requires i < |lines|
    ensures RewriteAll(lines[..i + 1], launcher, broker) ==
      RewriteAll(lines[..i], launcher, broker) + [RewriteLine(lines[i], launcher, broker)]
    ensures SomeNames(lines[..i + 1], LAUNCHER_KEY) <==>
      SomeNames(lines[..i], LAUNCHER_KEY) || Names(lines[i], LAUNCHER_KEY)
    ensures SomeNames(lines[..i + 1], BROKER_KEY) <==> SomeNames(lines[..i], BROKER_KEY) || Names(lines[i], BROKER_KEY)
  {
    SomeNamesSnoc(lines, i, LAUNCHER_KEY);
    SomeNamesSnoc(lines, i, BROKER_KEY);
  }

  lemma SomeNamesSnoc(lines: seq<Text>, i: nat, key: Text)
    requires i < |lines|
    ensures SomeNames(lines[..i + 1], key) <==> SomeNames(lines[..i], key) || Names(lines[i], key)
  {
    var before, after := lines[..i], lines[..i + 1];
    if k :| 0 <= k < |before| && Names(before[k], key) { assert Names(after[k], key); }
    if k :| 0 <= k < |after| && Names(after[k], key) { assert k < i ==> Names(before[k], key); }
    assert after[i] == lines[i];
  }

  lemma CharAt(s: Text, prefix: Text, k: nat)
    requires StartsWith(s, prefix) && k < |prefix|
    ensures s[k] == prefix[k]
  {
    assert s[..|prefix|][k] == s[k];
  }

  lemma KeysDiffer(line: Text)
    ensures !(Names(line, LAUNCHER_KEY) && Names(line, BROKER_KEY))
  {
    var s := DropReturns(line);
    if Names(line, LAUNCHER_KEY) { CharAt(s, LAUNCHER_KEY + "=", 16); }
    if Names(line, BROKER_KEY) { CharAt(s, BROKER_KEY + "=", 16); }
  }

  // ------------------------------------------------------- lines and their ends

  predicate EndsInReturn(line: Text) {
    line != [] && line[|line| - 1] == '\r'
  }

  lemma {:induction false} LinesHaveNoNewline(text: Text)
    ensures forall i :: 0 <= i < |Lines(text)| ==> '\n' !in Lines(text)[i]
    decreases |text|
  {
    if text != [] {
      var cut := LineLength(text);
      if cut < |text| {
        LinesHaveNoNewline(text[cut + 1..]);
      } else {
        assert text[..cut] == text;
      }
    }
  }

  lemma {:induction false} LineLengthOf(line: Text, rest: Text)
    requires '\n' !in line
    ensures LineLength(line + ['\n'] + rest) == |line|
  {
    if line != [] {
      LineLengthOf(line[1..], rest);
      assert (line + ['\n'] + rest)[1..] == line[1..] + ['\n'] + rest;
    }
  }

  lemma LinesUnfold(line: Text, rest: Text)
    requires '\n' !in line
    ensures Lines(line + ['\n'] + rest) == [DropOneReturn(line)] + Lines(rest)
  {
    LineLengthOf(line, rest);
    var text := line + ['\n'] + rest;
    assert text[..|line|] == line && text[|line| + 1..] == rest;
  }

  lemma LineThenRest(line: Text, newline: Text, rest: Text)
    requires newline == "\n" || newline == "\r\n"
    requires '\n' !in line && !EndsInReturn(line)
    ensures Lines(line + newline + rest) == [line] + Lines(rest)
  {
    if newline == "\n" {
      LinesUnfold(line, rest);
    } else {
      LinesUnfold(line + ['\r'], rest);
      assert line + ['\r'] + ['\n'] + rest == line + newline + rest;
    }
  }

  /** The rewritten text splits into exactly the rewritten lines, under either ending. */
  lemma {:induction false} LinesOfTerminated(lines: seq<Text>, newline: Text)
    requires newline == "\n" || newline == "\r\n"
    requires forall i :: 0 <= i < |lines| ==> '\n' !in lines[i] && !EndsInReturn(lines[i])
    ensures Lines(Terminated(lines, newline)) == lines
  {
    if lines != [] {
      LinesOfTerminated(lines[1..], newline);
      LineThenRest(lines[0], newline, Terminated(lines[1..], newline));
      assert Terminated(lines, newline) == lines[0] + newline + Terminated(lines[1..], newline);
      assert lines == [lines[0]] + lines[1..];
    }
  }

  lemma DropReturnsFacts(line: Text)
    ensures !EndsInReturn(DropReturns(line))
    ensures '\n' !in line ==> '\n' !in DropReturns(line)
    ensures Trim(DropReturns(line)) == Trim(line)
  {
    if EndsInReturn(line) {
      DropReturnsFacts(line[..|line| - 1]);
      TrimDropsLast(line);
    }
  }

  // ------------------------------------------------------------------- trimming

  lemma {:induction false} TrimDropsLast(s: Text)
    requires s != [] && IsSpace(s[|s| - 1])
    ensures Trim(s) == Trim(s[..|s| - 1])
  {
    var front := s[..|s| - 1];
    if !IsSpace(s[0]) {
      assert front[0] == s[0];
    } else if |s| > 1 {
      TrimDropsLast(s[1..]);
      assert s[1..][..|s| - 2] == front[1..] && front[0] == s[0];
    }
  }

  lemma {:induction false} TrimOfTrimEnd(s: Text)
    ensures Trim(TrimEnd(s)) == Trim(s)
  {
    if s != [] && IsSpace(s[|s| - 1]) {
      TrimOfTrimEnd(s[..|s| - 1]);
      TrimDropsLast(s);
    }
  }

  lemma TrimFacts(s: Text)
    ensures IsTrimmed(Trim(s))
    ensures IsTrimmed(s) ==> Trim(s) == s
    ensures forall c :: c in Trim(s) ==> c in s
  {
    TrimStartFacts(s);
    TrimEndFacts(TrimStart(s));
  }

  lemma TrimStartFacts(s: Text)
    ensures TrimStart(s) == [] || !IsSpace(TrimStart(s)[0])
    ensures forall c :: c in TrimStart(s) ==> c in s
  {
  }

  lemma TrimEndFacts(s: Text)
    requires s == [] || !IsSpace(s[0])
    ensures IsTrimmed(TrimEnd(s))
    ensures forall c :: c in TrimEnd(s) ==> c in s
  {
    if s != [] && IsSpace(s[|s| - 1]) {
      TrimEndFacts(s[..|s| - 1]);
    }
  }

  lemma {:induction false} TrimEndBehind(head: Text, tail: Text)
    requires head != [] && !IsSpace(head[|head| - 1])
    ensures TrimEnd(head + tail) == head + TrimEnd(tail)
  {
    if tail == [] {
      assert head + tail == head;
    } else if IsSpace(tail[|tail| - 1]) {
      TrimEndBehind(head, tail[..|tail| - 1]);
      assert (head + tail)[..|head + tail| - 1] == head + tail[..|tail| - 1];
    }
  }

  lemma {:induction false} EqualsAtKey(key: Text, value: Text)
    requires '=' !in key
    ensures EqualsAt(key + "=" + value) == |key|
  {
    if key != [] {
      EqualsAtKey(key[1..], value);
      assert (key + "=" + value)[1..] == key[1..] + "=" + value;
    }
  }

  // ------------------------------------------------------- the two key lines

  predicate IsPathKey(key: Text) {
    key == LAUNCHER_KEY || key == BROKER_KEY
  }

  lemma PathKeyFacts(key: Text)
    requires IsPathKey(key)
    ensures IsSupportedKey(key) && '=' !in key && Trim(key) == key
    ensures key != "ORDIVON_BEARER_TOKEN" && key != "ORDIVON_REMOTE_BEARER_TOKEN"
    ensures |key| > 0 && key[0] == 'O' && !IsSpace(key[0])
  {
    KeyIsSupported(key);
    KeyIsTrim(key);
    KeyIsNoToken(key);
  }

  lemma KeyIsSupported(key: Text)
    requires IsPathKey(key)
    ensures IsSupportedKey(key) && '=' !in key
  {
    assert key[..8] == "ORDIVON_";
  }

  lemma KeyIsTrim(key: Text)
    requires IsPathKey(key)
    ensures |key| > 0 && key[0] == 'O' && !IsSpace(key[0]) && Trim(key) == key
  {
    assert key[|key| - 1] == 'H';
  }

  lemma KeyIsNoToken(key: Text)
    requires IsPathKey(key)
    ensures key != "ORDIVON_BEARER_TOKEN" && key != "ORDIVON_REMOTE_BEARER_TOKEN"
  {
    assert key[8] == 'W';
  }

  /** However a path line is spaced on its right, it assigns the trimmed path. */
  lemma {:induction false} EntryOfPathLine(key: Text, path: Text)
    requires IsPathKey(key)
    ensures EntryOf(key + "=" + path)
         == if '\0' in Trim(path) then Refused(ContainsNul) else Assignment(key, Trim(path))
  {
    PathKeyFacts(key);
    var raw := key + "=" + path;
    TrimEndBehind(key + "=", path);
    var line := key + "=" + TrimEnd(path);
    assert Trim(raw) == line;
    EqualsAtKey(key, TrimEnd(path));
    assert line[..|key|] == key && line[|key| + 1..] == TrimEnd(path);
    TrimOfTrimEnd(path);
  }

  lemma EntryOfNamedLine(raw: Text, key: Text)
    requires IsPathKey(key) && Names(raw, key)
    ensures EntryOf(raw).Assignment? ==> EntryOf(raw).name == key
    ensures EntryOf(raw) == Refused(ContainsNul) || EntryOf(raw).Assignment?
  {
    var line := DropReturns(raw);
    DropReturnsFacts(raw);
    var path := line[|key| + 1..];
    assert line == key + "=" + path;
    EntryOfPathLine(key, path);
  }

  // ------------------------------------------------ what the parser guarantees

  /** What a path must look like to survive the file. */
  predicate IsClean(path: Text) {
    IsTrimmed(path) && '\0' !in path && '\n' !in path
  }

  lemma EntryIsClean(raw: Text)
    requires '\n' !in raw
    ensures EntryOf(raw).Assignment? ==> IsClean(EntryOf(raw).value)
  {
    var line := Trim(raw);
    TrimFacts(raw);
    if EqualsAt(line) < |line| {
      TrimFacts(line[EqualsAt(line) + 1..]);
    }
  }

  lemma {:induction false} ParsedValuesAreClean(lines: seq<Text>, from: nat, values: map<Text, Text>)
    requires from <= |lines| && forall i :: 0 <= i < |lines| ==> '\n' !in lines[i]
    requires forall k :: k in values ==> IsClean(values[k])
    requires ParseLines(lines, from, values).Ok?
    ensures var parsed := ParseLines(lines, from, values).value; forall k :: k in parsed ==> IsClean(parsed[k])
    decreases |lines| - from
  {
    if from < |lines| {
      EntryIsClean(lines[from]);
      var entry := EntryOf(lines[from]);
      if entry.Assignment? {
        ParsedValuesAreClean(lines, from + 1, values[entry.name := entry.value]);
      } else {
        ParsedValuesAreClean(lines, from + 1, values);
      }
    }
  }

  lemma {:induction false} CollectKeeps(entries: seq<Entry>, from: nat, values: map<Text, Text>, name: Text)
    requires from <= |entries| && Collect(entries, from, values).Ok? && name in values
    ensures name in Collect(entries, from, values).value
    ensures forall j | from <= j < |entries| && entries[j].Assignment? :: entries[j].name != name
    decreases |entries| - from
  {
    if from < |entries| {
      CollectKeeps(entries, from + 1, if entries[from].Assignment?
        then values[entries[from].name := entries[from].value] else values, name);
    }
  }

  lemma {:induction false} CollectedOnce(entries: seq<Entry>, from: nat, values: map<Text, Text>, i: nat)
    requires from <= i < |entries| && Collect(entries, from, values).Ok? && entries[i].Assignment?
    ensures entries[i].name !in values && entries[i].name in Collect(entries, from, values).value
    ensures forall j | from <= j < |entries| && j != i && entries[j].Assignment? :: entries[j].name != entries[i].name
    decreases |entries| - from
  {
    var entry := entries[from];
    var next := if entry.Assignment? then values[entry.name := entry.value] else values;
    if from < i {
      CollectedOnce(entries, from + 1, next, i);
    } else {
      CollectKeeps(entries, from + 1, next, entry.name);
    }
  }

  /** A parsed text assigns every key on one line only. */
  lemma KeysAreUnique(lines: seq<Text>, from: nat, values: map<Text, Text>, i: nat)
    requires from <= i < |lines| && ParseLines(lines, from, values).Ok? && EntryOf(lines[i]).Assignment?
    ensures var name := EntryOf(lines[i]).name;
            && name !in values && name in ParseLines(lines, from, values).value
            && forall j :: from <= j < |lines| && j != i && EntryOf(lines[j]).Assignment? ==>
              EntryOf(lines[j]).name != name
  {
    CollectedOnce(Entries(lines), from, values, i);
    forall j | from <= j < |lines| && j != i && EntryOf(lines[j]).Assignment?
      ensures EntryOf(lines[j]).name != EntryOf(lines[i]).name {
      assert Entries(lines)[j] == EntryOf(lines[j]);
    }
  }

  /** The keys the Runtime takes: RUST_LOG, and ORDIVON_ with underscores, capital letters and digits behind it. */
  lemma SupportedKeysAreExactly(name: Text)
    ensures IsSupportedKey(name) <==>
      || name == "RUST_LOG"
      || (&& |name| >= 8 && name[..8] == "ORDIVON_"
          && forall c | c in name[8..] :: c == '_' || 'A' <= c <= 'Z' || '0' <= c <= '9')
  {
    if |name| >= 8 && name[..8] == "ORDIVON_" {
      PrefixIsKey(name[..8]);
      assert forall i | 0 <= i < 8 :: name[i] == name[..8][i];
      assert name[0] == 'O' && |"ORDIVON_"| == 8;
      forall i | 8 <= i < |name| ensures name[i] in name[8..] {
        assert name[i] == name[8..][i - 8];
      }
    }
  }

  lemma PrefixIsKey(prefix: Text)
    requires prefix == "ORDIVON_"
    ensures forall i | 0 <= i < 8 :: IsKeyChar(prefix[i])
    ensures prefix[0] == 'O'
  {
  }

  /** The line is `left=right`, cut at its first equals sign. */
  predicate IsAssignment(line: Text, left: Text, right: Text) {
    line == left + "=" + right && '=' !in left
  }

  /** What a line means, for every line: nothing if it is blank or a comment; without an equals sign it is refused;
      and else what is on the two sides of the first one decides, each trimmed. */
  lemma LineMeansExactly(raw: Text, left: Text, right: Text)
    ensures var line, entry := Trim(raw), EntryOf(raw);
      var name, value := Trim(left), Trim(right);
      && (entry.Skipped? <==> line == [] || line[0] == '#')
      && (entry == Refused(NotAnAssignment) <==> !entry.Skipped? && '=' !in line)
      && (!entry.Skipped? && IsAssignment(line, left, right) ==>
            && (entry == Refused(UnsupportedKey) <==> !IsSupportedKey(name))
            && (entry == Refused(BearerSecret) <==>
                  name == "ORDIVON_BEARER_TOKEN" || name == "ORDIVON_REMOTE_BEARER_TOKEN")
            && (entry.Assignment? ==> entry == Assignment(name, value) && '\0' !in value)
            && (entry.Refused? ==> entry.reason == ContainsNul ==> '\0' in value))
      && entry != Refused(DuplicateKey)
  {
    var line := Trim(raw);
    assert line[..EqualsAt(line)] + line[EqualsAt(line)..] == line;
    if IsAssignment(line, left, right) {
      EqualsAtKey(left, right);
      assert line[..|left|] == left && line[|left| + 1..] == right;
      TokensAreSupported();
    }
  }

  lemma TokensAreSupported()
    ensures IsSupportedKey("ORDIVON_BEARER_TOKEN") && IsSupportedKey("ORDIVON_REMOTE_BEARER_TOKEN")
  {
    assert "ORDIVON_BEARER_TOKEN"[..8] == "ORDIVON_" && "ORDIVON_REMOTE_BEARER_TOKEN"[..8] == "ORDIVON_";
  }

  /** One of the first `to` lines assigns this key. */
  predicate IsAssigned(lines: seq<Text>, to: nat, name: Text)
    requires to <= |lines|
  {
    exists j :: 0 <= j < to && EntryOf(lines[j]).Assignment? && EntryOf(lines[j]).name == name
  }

  /** Line `i` is refused by itself, or assigns a key that an earlier line assigns. */
  predicate IsAtFault(lines: seq<Text>, i: nat, reason: Reason)
    requires i < |lines|
  {
    || EntryOf(lines[i]) == Refused(reason)
    || (reason == DuplicateKey && EntryOf(lines[i]).Assignment? && IsAssigned(lines, i, EntryOf(lines[i]).name))
  }

  predicate AreFaultless(lines: seq<Text>, to: nat)
    requires to <= |lines|
  {
    forall i, reason | 0 <= i < to :: !IsAtFault(lines, i, reason)
  }

  /** A text is accepted exactly when no line is at fault; the error of another names its first such line,
      counted from one, and what is wrong with it. */
  lemma FirstFaultIsReported(text: Text)
    ensures var lines, result := Lines(text), Parse(text);
      && (result.Ok? <==> AreFaultless(lines, |lines|))
      && (result.Err? ==>
            && result.error.BadLine? && 1 <= result.error.line <= |lines|
            && IsAtFault(lines, result.error.line - 1, result.error.reason)
            && AreFaultless(lines, result.error.line - 1))
  {
    FaultFrom(Lines(text), 0, map[]);
  }

  lemma {:induction false} FaultFrom(lines: seq<Text>, from: nat, values: map<Text, Text>)
    requires from <= |lines| && AreFaultless(lines, from)
    requires forall name :: name in values <==> IsAssigned(lines, from, name)
    ensures var result := ParseLines(lines, from, values);
      && (result.Ok? ==> AreFaultless(lines, |lines|))
      && (result.Err? ==>
            && result.error.BadLine? && from < result.error.line <= |lines|
            && IsAtFault(lines, result.error.line - 1, result.error.reason)
            && AreFaultless(lines, result.error.line - 1))
    decreases |lines| - from
  {
    if from < |lines| {
      var entry := EntryOf(lines[from]);
      ParseUnfold(lines, from, values);
      if FaultOf(entry, values).None? {
        FaultlessNext(lines, from, values);
        AssignedWith(lines, from, values);
        FaultFrom(lines, from + 1, WithEntry(entry, values));
      } else {
        assert IsAtFault(lines, from, FaultOf(entry, values).value);
      }
    }
  }

  function FaultOf(entry: Entry, values: map<Text, Text>): Option<Reason> {
    match entry
    case Skipped => None
    case Refused(reason) => Some(reason)
    case Assignment(name, _) => if name in values then Some(DuplicateKey) else None
  }

  function WithEntry(entry: Entry, values: map<Text, Text>): map<Text, Text> {
    if entry.Assignment? then values[entry.name := entry.value] else values
  }

  lemma ParseUnfold(lines: seq<Text>, from: nat, values: map<Text, Text>)
    requires from < |lines|
    ensures var entry := EntryOf(lines[from]);
      ParseLines(lines, from, values) ==
      match FaultOf(entry, values)
      case Some(reason) => Err(BadLine(reason, from + 1))
      case None => ParseLines(lines, from + 1, WithEntry(entry, values))
  {
  }

  lemma FaultlessNext(lines: seq<Text>, from: nat, values: map<Text, Text>)
    requires from < |lines| && AreFaultless(lines, from) && FaultOf(EntryOf(lines[from]), values).None?
    requires forall name :: name in values <==> IsAssigned(lines, from, name)
    ensures AreFaultless(lines, from + 1)
  {
  }

  lemma AssignedWith(lines: seq<Text>, from: nat, values: map<Text, Text>)
    requires from < |lines| && forall name :: name in values <==> IsAssigned(lines, from, name)
    ensures forall name :: name in WithEntry(EntryOf(lines[from]), values) <==> IsAssigned(lines, from + 1, name)
  {
    forall name ensures name in WithEntry(EntryOf(lines[from]), values) <==> IsAssigned(lines, from + 1, name) {
      AssignedNext(lines, from, name);
    }
  }

  lemma AssignedNext(lines: seq<Text>, to: nat, name: Text)
    requires to < |lines|
    ensures IsAssigned(lines, to + 1, name) <==>
      IsAssigned(lines, to, name) || (EntryOf(lines[to]).Assignment? && EntryOf(lines[to]).name == name)
  {
    if EntryOf(lines[to]).Assignment? && EntryOf(lines[to]).name == name {
      assert IsAssigned(lines, to + 1, name);
    }
  }

  // -------------------------------------------------------------- main results

  function Replace(values: map<Text, Text>, launcher: Text, broker: Text): map<Text, Text> {
    map k | k in values :: if k == LAUNCHER_KEY then launcher else if k == BROKER_KEY then broker else values[k]
  }

  /** Line by line, the rewritten text says the same except for the two paths. */
  lemma EntryOfRewrittenLine(raw: Text, launcher: Text, broker: Text)
    requires IsClean(launcher) && IsClean(broker)
    requires !EntryOf(raw).Refused?
    ensures EntryOf(RewriteLine(raw, launcher, broker))
         == if Names(raw, LAUNCHER_KEY) then Assignment(LAUNCHER_KEY, launcher)
            else if Names(raw, BROKER_KEY) then Assignment(BROKER_KEY, broker)
            else EntryOf(raw)
  {
    DropReturnsFacts(raw);
    EntryOfCleanPath(LAUNCHER_KEY, launcher);
    EntryOfCleanPath(BROKER_KEY, broker);
  }

  lemma EntryOfCleanPath(key: Text, path: Text)
    requires IsPathKey(key) && IsClean(path)
    ensures EntryOf(key + "=" + path) == Assignment(key, path)
  {
    TrimFacts(path);
    EntryOfPathLine(key, path);
  }

  /** The rewriter recognises the line if it assigns one of the two keys, and only then. */
  predicate FoundByName(raw: Text) {
    EntryOf(raw).Assignment? ==>
      && (EntryOf(raw).name == LAUNCHER_KEY <==> Names(raw, LAUNCHER_KEY))
      && (EntryOf(raw).name == BROKER_KEY <==> Names(raw, BROKER_KEY))
  }

  lemma ReplaceAdds(values: map<Text, Text>, name: Text, value: Text, launcher: Text, broker: Text)
    ensures Replace(values[name := value], launcher, broker)
         == Replace(values, launcher, broker)[name :=
              if name == LAUNCHER_KEY then launcher else if name == BROKER_KEY then broker else value]
  {
  }

  lemma {:induction false} ParseRewritten(
    lines: seq<Text>, from: nat, values: map<Text, Text>, launcher: Text, broker: Text)
    requires from <= |lines| && IsClean(launcher) && IsClean(broker)
    requires ParseLines(lines, from, values).Ok?
    requires forall i :: 0 <= i < |lines| ==> FoundByName(lines[i])
    ensures ParseLines(RewriteAll(lines, launcher, broker), from, Replace(values, launcher, broker))
         == Ok(Replace(ParseLines(lines, from, values).value, launcher, broker))
    decreases |lines| - from
  {
    if from < |lines| {
      var raw := lines[from];
      var entry := EntryOf(raw);
      if entry.Skipped? {
        NamedLineAssigns(raw);
        EntryOfRewrittenLine(raw, launcher, broker);
      }
      assert RewriteAll(lines, launcher, broker)[from] == RewriteLine(raw, launcher, broker);
      if entry.Assignment? {
        var next := values[entry.name := entry.value];
        ParseRewritten(lines, from + 1, next, launcher, broker);
        AssignmentOfRewritten(raw, launcher, broker);
        ReplaceAdds(values, entry.name, entry.value, launcher, broker);
      } else {
        ParseRewritten(lines, from + 1, values, launcher, broker);
      }
    }
  }

  lemma AssignmentOfRewritten(raw: Text, launcher: Text, broker: Text)
    requires IsClean(launcher) && IsClean(broker) && EntryOf(raw).Assignment?
    requires FoundByName(raw)
    ensures var now := EntryOf(RewriteLine(raw, launcher, broker));
            var was := EntryOf(raw);
            now == Assignment(was.name,
              if was.name == LAUNCHER_KEY then launcher else if was.name == BROKER_KEY then broker else was.value)
  {
    EntryOfRewrittenLine(raw, launcher, broker);
  }

  lemma NamedLineAssigns(raw: Text)
    requires !EntryOf(raw).Refused?
    ensures Names(raw, LAUNCHER_KEY) || Names(raw, BROKER_KEY) ==> EntryOf(raw).Assignment?
  {
    if Names(raw, LAUNCHER_KEY) { EntryOfNamedLine(raw, LAUNCHER_KEY); }
    if Names(raw, BROKER_KEY) { EntryOfNamedLine(raw, BROKER_KEY); }
  }

  lemma EntryNotRefused(lines: seq<Text>, from: nat, values: map<Text, Text>, i: nat)
    requires from <= i < |lines| && ParseLines(lines, from, values).Ok?
    ensures !EntryOf(lines[i]).Refused?
    decreases |lines| - from
  {
    if from < i {
      var entry := EntryOf(lines[from]);
      EntryNotRefused(lines, from + 1, if entry.Assignment? then values[entry.name := entry.value] else values, i);
    }
  }

  /** The one line of a parsed text that assigns a path key is the one the rewriter finds. */
  lemma NamesIffAssigns(lines: seq<Text>, key: Text)
    requires ParseLines(lines, 0, map[]).Ok? && IsPathKey(key) && SomeNames(lines, key)
    ensures key in ParseLines(lines, 0, map[]).value
    ensures forall i :: 0 <= i < |lines| && EntryOf(lines[i]).Assignment? ==>
              (EntryOf(lines[i]).name == key <==> Names(lines[i], key))
  {
    var named :| 0 <= named < |lines| && Names(lines[named], key);
    EntryNotRefused(lines, 0, map[], named);
    EntryOfNamedLine(lines[named], key);
    KeysAreUnique(lines, 0, map[], named);
    forall i | 0 <= i < |lines| && EntryOf(lines[i]).Assignment? && Names(lines[i], key)
      ensures EntryOf(lines[i]).name == key
    {
      EntryOfNamedLine(lines[i], key);
    }
  }

  lemma RewrittenLinesAreLines(lines: seq<Text>, launcher: Text, broker: Text)
    requires IsClean(launcher) && IsClean(broker)
    requires forall i :: 0 <= i < |lines| ==> '\n' !in lines[i]
    ensures var rewritten := RewriteAll(lines, launcher, broker);
            forall i :: 0 <= i < |rewritten| ==> '\n' !in rewritten[i] && !EndsInReturn(rewritten[i])
  {
    forall i | 0 <= i < |lines|
      ensures var line := RewriteLine(lines[i], launcher, broker); '\n' !in line && !EndsInReturn(line)
    {
      DropReturnsFacts(lines[i]);
      PathLineIsLine(LAUNCHER_KEY, launcher);
      PathLineIsLine(BROKER_KEY, broker);
    }
  }

  lemma PathLineIsLine(key: Text, path: Text)
    requires IsPathKey(key) && IsClean(path)
    ensures '\n' !in key + "=" + path && !EndsInReturn(key + "=" + path)
  {
    var line := key + "=" + path;
    KeyIsSupported(key);
    assert IsSpace('\r');
    assert line[|line| - 1] == if path == [] then '=' else path[|path| - 1];
    assert !IsKeyChar('\n');
  }

  /** A rewrite of a text the Runtime accepts is accepted again and changes exactly the
      two paths, if and only if both paths are trimmed and free of NUL and newline. */
  lemma RewriteThenParse(text: Text, launcher: Text, broker: Text)
    requires Parse(text).Ok? && Rewrite(text, launcher, broker).Ok?
    ensures var before := Parse(text).value;
            var after := Parse(Rewrite(text, launcher, broker).value);
            && LAUNCHER_KEY in before && BROKER_KEY in before
            && (after == Ok(before[LAUNCHER_KEY := launcher][BROKER_KEY := broker])
                <==> IsClean(launcher) && IsClean(broker))
  {
    AllFoundByName(Lines(text));
    if IsClean(launcher) && IsClean(broker) {
      RewriteWithCleanPaths(text, launcher, broker);
    } else {
      var wanted := Parse(text).value[LAUNCHER_KEY := launcher][BROKER_KEY := broker];
      assert wanted[LAUNCHER_KEY] == launcher && wanted[BROKER_KEY] == broker;
      if Parse(Rewrite(text, launcher, broker).value) == Ok(wanted) {
        ParseIsClean(Rewrite(text, launcher, broker).value);
      }
    }
  }

  lemma ParseIsClean(text: Text)
    requires Parse(text).Ok?
    ensures forall k :: k in Parse(text).value ==> IsClean(Parse(text).value[k])
  {
    LinesHaveNoNewline(text);
    ParsedValuesAreClean(Lines(text), 0, map[]);
  }

  lemma RewriteWithCleanPaths(text: Text, launcher: Text, broker: Text)
    requires Parse(text).Ok? && Rewrite(text, launcher, broker).Ok? && IsClean(launcher) && IsClean(broker)
    ensures Parse(Rewrite(text, launcher, broker).value)
         == Ok(Parse(text).value[LAUNCHER_KEY := launcher][BROKER_KEY := broker])
  {
    var lines := Lines(text);
    var values := Parse(text).value;
    AllFoundByName(lines);
    ParseRewritten(lines, 0, map[], launcher, broker);
    LinesOfRewrite(text, launcher, broker);
    ReplaceIsUpdate(values, launcher, broker);
  }

  lemma AllFoundByName(lines: seq<Text>)
    requires ParseLines(lines, 0, map[]).Ok?
    requires SomeNames(lines, LAUNCHER_KEY) && SomeNames(lines, BROKER_KEY)
    ensures forall i :: 0 <= i < |lines| ==> FoundByName(lines[i])
    ensures LAUNCHER_KEY in ParseLines(lines, 0, map[]).value && BROKER_KEY in ParseLines(lines, 0, map[]).value
  {
    NamesIffAssigns(lines, LAUNCHER_KEY);
    NamesIffAssigns(lines, BROKER_KEY);
  }

  lemma ReplaceIsUpdate(values: map<Text, Text>, launcher: Text, broker: Text)
    requires LAUNCHER_KEY in values && BROKER_KEY in values
    ensures Replace(values, launcher, broker) == values[LAUNCHER_KEY := launcher][BROKER_KEY := broker]
    ensures Replace(map[], launcher, broker) == map[]
  {
  }

  predicate HasCrLf(text: Text) {
    exists i :: 0 <= i <= |text| - 2 && text[i..][..2] == "\r\n"
  }

  /** The rewritten text ends every line as the file did: with a carriage return before each line feed if there was
      one before any, and else with none. */
  lemma EndingsAreKept(text: Text, launcher: Text, broker: Text)
    requires Rewrite(text, launcher, broker).Ok? && IsClean(launcher) && IsClean(broker)
    ensures var rewritten := Rewrite(text, launcher, broker).value;
      && rewritten != [] && rewritten[|rewritten| - 1] == '\n'
      && forall i | 0 <= i < |rewritten| && rewritten[i] == '\n' ::
        HasCrLf(text) <==> i > 0 && rewritten[i - 1] == '\r'
  {
    assert HasCrLf(text) <==> Newline(text) == "\r\n" by {
      if i :| 0 <= i < |text| - 1 && text[i] == '\r' && text[i + 1] == '\n' {
        assert text[i..][..2] == "\r\n";
      }
      if i :| 0 <= i <= |text| - 2 && text[i..][..2] == "\r\n" {
        assert text[i] == text[i..][..2][0] && text[i + 1] == text[i..][..2][1];
      }
    }
    LinesHaveNoNewline(text);
    RewrittenLinesAreLines(Lines(text), launcher, broker);
    EndingsOfTerminated(RewriteAll(Lines(text), launcher, broker), Newline(text));
  }

  lemma {:induction false} EndingsOfTerminated(lines: seq<Text>, newline: Text)
    requires newline == "\n" || newline == "\r\n"
    requires forall i :: 0 <= i < |lines| ==> '\n' !in lines[i] && !EndsInReturn(lines[i])
    ensures var text := Terminated(lines, newline);
      && (lines != [] ==> text != [] && text[|text| - 1] == '\n')
      && forall i | 0 <= i < |text| && text[i] == '\n' :: newline == "\r\n" <==> i > 0 && text[i - 1] == '\r'
  {
    if lines != [] {
      var head, rest := lines[0] + newline, Terminated(lines[1..], newline);
      EndingsOfTerminated(lines[1..], newline);
      var text := Terminated(lines, newline);
      assert text == head + rest;
      assert forall k | 0 <= k < |lines[0]| :: text[k] == lines[0][k] != '\n';
      forall i | 0 <= i < |text| && text[i] == '\n'
        ensures newline == "\r\n" <==> i > 0 && text[i - 1] == '\r' {
        if i >= |head| {
          assert text[i] == rest[i - |head|];
        }
      }
    }
  }

  lemma LinesOfRewrite(text: Text, launcher: Text, broker: Text)
    requires Rewrite(text, launcher, broker).Ok? && IsClean(launcher) && IsClean(broker)
    ensures Lines(Rewrite(text, launcher, broker).value) == RewriteAll(Lines(text), launcher, broker)
  {
    LinesHaveNoNewline(text);
    RewrittenLinesAreLines(Lines(text), launcher, broker);
    LinesOfTerminated(RewriteAll(Lines(text), launcher, broker), Newline(text));
  }
}
