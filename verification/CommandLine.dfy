/** Windows command lines: the two quoters of the repository (the C# one, which
    the launcher and the broker both carry, and the Rust one of the deployer)
    against the rules by which a Microsoft C program splits its command line
    into arguments ("Parsing C command-line arguments").
 */
module CommandLine {
  import opened Types

  /** A UTF-16 code unit in C#, a Unicode scalar value in Rust. */
  type Symbol = nat
  type Text = seq<Symbol>

  const TAB: Symbol := 0x09
  const SPACE: Symbol := 0x20
  const QUOTE: Symbol := 0x22
  const BACKSLASH: Symbol := 0x5C

  // ---------------------------------------------------------------- the reader

  /** The only separators of the Microsoft rules. */
  predicate IsBlank(c: Symbol) {
    c == SPACE || c == TAB
  }

  function Slashes(n: nat): Text {
    seq(n, _ => BACKSLASH)
  }

  datatype Scan = Scan(text: Text, rest: Text)

  function Prepend(head: Text, tail: Scan): Scan {
    tail.(text := head + tail.text)
  }

  /** Reads one argument, `pending` backslashes of it being read already. Backslashes
      are literal unless a quote follows them: then each pair stands for one, and an
      odd one makes the quote literal. A doubled quote inside quotes is a literal
      quote; any other quote opens or closes. */
  function ScanArgument(s: Text, quoted: bool, pending: nat): (r: Scan)
    ensures |r.rest| <= |s|
    ensures s != [] && (quoted || !IsBlank(s[0])) ==> |r.rest| < |s|
    decreases |s|
  {
    if s == [] || (!quoted && IsBlank(s[0])) then
      Scan(Slashes(pending), s)
    else if s[0] == BACKSLASH then
      ScanArgument(s[1..], quoted, pending + 1)
    else if s[0] == QUOTE then
      if pending % 2 == 1 then
        Prepend(Slashes(pending / 2) + [QUOTE], ScanArgument(s[1..], quoted, 0))
      else if quoted && |s| > 1 && s[1] == QUOTE then
        Prepend(Slashes(pending / 2) + [QUOTE], ScanArgument(s[2..], true, 0))
      else
        Prepend(Slashes(pending / 2), ScanArgument(s[1..], !quoted, 0))
    else
      Prepend(Slashes(pending) + [s[0]], ScanArgument(s[1..], quoted, 0))
  }

  /** Reads every argument after the program name. */
  function ParseArguments(s: Text): seq<Text>
    decreases |s|
  {
    if s == [] then []
    else if IsBlank(s[0]) then ParseArguments(s[1..])
    else
      var r := ScanArgument(s, false, 0);
      [r.text] + ParseArguments(r.rest)
  }

  /** Reads the program name: quotes group, and no escape sequence applies. */
  function ScanProgram(s: Text, quoted: bool): Scan {
    if s == [] || (!quoted && IsBlank(s[0])) then Scan([], s)
    else if s[0] == QUOTE then ScanProgram(s[1..], !quoted)
    else Prepend([s[0]], ScanProgram(s[1..], quoted))
  }

  function ParseCommandLine(s: Text): seq<Text> {
    var program := ScanProgram(s, false);
    [program.text] + ParseArguments(program.rest)
  }

  // --------------------------------------------------------------- the writers

  ghost predicate NeedsQuotes(value: Text) {
    value == [] || exists c :: c in value && (IsWhiteSpaceCode(c) || c == QUOTE)
  }

  /** The body of a quoted argument, with `pending` backslashes already read. */
  function Escape(value: Text, pending: nat): Text
    decreases |value|
  {
    if value == [] then Slashes(2 * pending)
    else if value[0] == BACKSLASH then Escape(value[1..], pending + 1)
    else if value[0] == QUOTE then Slashes(2 * pending + 1) + [QUOTE] + Escape(value[1..], 0)
    else Slashes(pending) + [value[0]] + Escape(value[1..], 0)
  }

  function Enclose(value: Text): Text {
    [QUOTE] + Escape(value, 0) + [QUOTE]
  }

  ghost function Quoted(value: Text): Text {
    if NeedsQuotes(value) then Enclose(value) else value
  }

  /** The escaping loop shared, line for line, by all three copies. */
  method EncloseLoop(value: Text) returns (quoted: Text)
    ensures quoted == Enclose(value)
  {
    quoted := [QUOTE];
    var backslashes := 0;
    for i := 0 to |value|
      invariant quoted + Escape(value[i..], backslashes) == [QUOTE] + Escape(value, 0)
    {
      var c := value[i];
      assert value[i..][1..] == value[i + 1..];
      if c == BACKSLASH {
        backslashes := backslashes + 1;
      } else if c == QUOTE {
        quoted := quoted + Slashes(backslashes * 2 + 1) + [QUOTE];
        backslashes := 0;
      } else {
        quoted := quoted + Slashes(backslashes) + [c];
        backslashes := 0;
      }
    }
    quoted := quoted + Slashes(backslashes * 2) + [QUOTE];
  }

  method QuoteWindowsArgument(value: Text) returns (quoted: Text)
    ensures quoted == Quoted(value)
  {
    var needsQuotes := |value| == 0;
    var i := 0;
    while i < |value| && !needsQuotes
      invariant 0 <= i <= |value|
      invariant needsQuotes ==> NeedsQuotes(value)
      invariant !needsQuotes ==>
          value != [] && forall k :: 0 <= k < i ==> !IsWhiteSpaceCode(value[k]) && value[k] != QUOTE
    {
      needsQuotes := IsWhiteSpaceCode(value[i]) || value[i] == QUOTE;
      assert value[i] in value;
      i := i + 1;
    }
    if !needsQuotes {
      return value;
    }
    quoted := EncloseLoop(value);
  }

  /** A value is written as it is exactly when the rules would read it so: not empty, no white space and no quote. */
  lemma PlainExactlyWhen(value: Text)
    ensures Quoted(value) == value <==> value != [] && forall c | c in value :: !IsWhiteSpaceCode(c) && c != QUOTE
  {
    EscapeIsLonger(value, 0);
  }

  lemma {:induction false} EscapeIsLonger(value: Text, pending: nat)
    ensures |Escape(value, pending)| >= |value| + pending
  {
    if value != [] {
      EscapeIsLonger(value[1..], if value[0] == BACKSLASH then pending + 1 else 0);
    }
  }

  /** Every already quoted argument, each after a space. */
  function Spaced(quoted: seq<Text>): Text {
    if quoted == [] then [] else [SPACE] + quoted[0] + Spaced(quoted[1..])
  }

  ghost function QuotedAll(arguments: seq<Text>): seq<Text> {
    seq(|arguments|, i requires 0 <= i < |arguments| => Quoted(arguments[i]))
  }

  lemma SpacedAppend(quoted: seq<Text>, last: Text)
    ensures Spaced(quoted + [last]) == Spaced(quoted) + [SPACE] + last
  {
    if quoted != [] {
      SpacedAppend(quoted[1..], last);
      assert (quoted + [last])[1..] == quoted[1..] + [last];
    }
  }

  method BuildCommandLine(executable: Text, arguments: seq<Text>) returns (line: Text)
    ensures line == Quoted(executable) + Spaced(QuotedAll(arguments))
  {
    line := QuoteWindowsArgument(executable);
    for i := 0 to |arguments|
      invariant line == Quoted(executable) + Spaced(QuotedAll(arguments[..i]))
    {
      var next := QuoteWindowsArgument(arguments[i]);
      line := line + [SPACE] + next;
      SpacedAppend(QuotedAll(arguments[..i]), next);
      assert QuotedAll(arguments[..i + 1]) == QuotedAll(arguments[..i]) + [next];
    }
    assert arguments[..|arguments|] == arguments;
  }

  /** The broker's `JoinArguments`: no leading separator, no program name. */
  ghost function Joined(arguments: seq<Text>): Text {
    if arguments == [] then [] else Quoted(arguments[0]) + Spaced(QuotedAll(arguments[1..]))
  }

  lemma JoinedAppend(arguments: seq<Text>, last: Text)
    ensures Joined(arguments + [last])
         == if arguments == [] then Quoted(last) else Joined(arguments) + [SPACE] + Quoted(last)
  {
    if arguments == [] {
      assert ([] + [last])[1..] == [] == QuotedAll([]);
    } else {
      SpacedAppend(QuotedAll(arguments[1..]), Quoted(last));
      assert (arguments + [last])[1..] == arguments[1..] + [last];
      assert QuotedAll(arguments[1..] + [last]) == QuotedAll(arguments[1..]) + [Quoted(last)];
    }
  }

  method JoinArguments(arguments: seq<Text>) returns (line: Text)
    ensures line == Joined(arguments)
  {
    line := [];
    for i := 0 to |arguments|
      invariant line == Joined(arguments[..i])
    {
      if i != 0 {
        line := line + [SPACE];
      }
      var next := QuoteWindowsArgument(arguments[i]);
      line := line + next;
      assert arguments[..i + 1] == arguments[..i] + [arguments[i]];
      JoinedAppend(arguments[..i], arguments[i]);
    }
    assert arguments[..|arguments|] == arguments;
  }

  /** The deployer's quoter: only a space, a tab or a quote calls for quotes. */
  function QuotedByDeployer(value: Text): Text {
    if SPACE in value || TAB in value || QUOTE in value then Enclose(value) else value
  }

  function QuotedByDeployerAll(arguments: seq<Text>): seq<Text> {
    seq(|arguments|, i requires 0 <= i < |arguments| => QuotedByDeployer(arguments[i]))
  }

  method QuoteByDeployer(value: Text) returns (quoted: Text)
    ensures quoted == QuotedByDeployer(value)
  {
    if !(SPACE in value || TAB in value || QUOTE in value) {
      return value;
    }
    quoted := EncloseLoop(value);
  }

  // ------------------------------------------------------ what the reader sees

  /** What may follow an argument: the end of the line or a separator. */
  predicate EndsArgument(rest: Text) {
    rest == [] || IsBlank(rest[0])
  }

  lemma {:induction false} ScanSlashes(n: nat, t: Text, quoted: bool, pending: nat)
    ensures ScanArgument(Slashes(n) + t, quoted, pending) == ScanArgument(t, quoted, pending + n)
  {
    if n == 0 {
      assert Slashes(0) + t == t;
    } else {
      ScanSlashes(n - 1, t, quoted, pending + 1);
      assert Slashes(n) + t == [BACKSLASH] + (Slashes(n - 1) + t);
      ScanSlash(Slashes(n - 1) + t, quoted, pending);
    }
  }

  lemma ScanSlash(t: Text, quoted: bool, pending: nat)
    ensures ScanArgument([BACKSLASH] + t, quoted, pending) == ScanArgument(t, quoted, pending + 1)
  {
    assert ([BACKSLASH] + t)[1..] == t;
  }

  lemma ScanClosingQuote(n: nat, rest: Text)
    requires EndsArgument(rest)
    ensures ScanArgument([QUOTE] + rest, true, 2 * n) == Scan(Slashes(n), rest)
  {
    var line := [QUOTE] + rest;
    assert line[1..] == rest;
    assert ScanArgument(rest, false, 0) == Scan([], rest);
    assert Slashes(n) + [] == Slashes(n);
  }

  lemma {:induction false} ScanSymbol(c: Symbol, t: Text, n: nat)
    requires c != BACKSLASH
    ensures ScanArgument([c] + t, true, if c == QUOTE then 2 * n + 1 else n)
         == Prepend(Slashes(n) + [c], ScanArgument(t, true, 0))
  {
    var line := [c] + t;
    assert line[0] == c && line[1..] == t;
    if c == QUOTE {
      assert (2 * n + 1) % 2 == 1 && (2 * n + 1) / 2 == n;
    }
  }

  /** Inside quotes the escaped body reads back as the pending backslashes and the value. */
  lemma {:induction false} ScanEscaped(value: Text, pending: nat, rest: Text)
    requires EndsArgument(rest)
    ensures ScanArgument(Escape(value, pending) + ([QUOTE] + rest), true, 0)
         == Scan(Slashes(pending) + value, rest)
    decreases |value|
  {
    var close := [QUOTE] + rest;
    if value == [] {
      ScanSlashes(2 * pending, close, true, 0);
      ScanClosingQuote(pending, rest);
      assert Slashes(pending) + value == Slashes(pending);
    } else if value[0] == BACKSLASH {
      ScanEscaped(value[1..], pending + 1, rest);
      assert Slashes(pending + 1) + value[1..] == Slashes(pending) + value;
    } else {
      var t := Escape(value[1..], 0) + close;
      EscapeUnfold(value, pending, close);
      ScanSlashes(if value[0] == QUOTE then 2 * pending + 1 else pending, [value[0]] + t, true, 0);
      ScanSymbol(value[0], t, pending);
      ScanEscaped(value[1..], 0, rest);
      PrependUnfold(value, pending, rest);
    }
  }

  lemma {:induction false} PrependUnfold(value: Text, pending: nat, rest: Text)
    requires value != []
    ensures Prepend(Slashes(pending) + [value[0]], Scan(Slashes(0) + value[1..], rest))
         == Scan(Slashes(pending) + value, rest)
  {
    assert Slashes(pending) + [value[0]] + (Slashes(0) + value[1..]) == Slashes(pending) + value;
  }

  lemma {:induction false} EscapeUnfold(value: Text, pending: nat, close: Text)
    requires value != [] && value[0] != BACKSLASH
    ensures Escape(value, pending) + close
         == Slashes(if value[0] == QUOTE then 2 * pending + 1 else pending)
            + ([value[0]] + (Escape(value[1..], 0) + close))
  {
  }

  /** Outside quotes a value without separators and quotes reads back as itself. */
  lemma {:induction false} ScanPlain(value: Text, rest: Text, pending: nat)
    requires EndsArgument(rest)
    requires SPACE !in value && TAB !in value && QUOTE !in value
    ensures ScanArgument(value + rest, false, pending) == Scan(Slashes(pending) + value, rest)
    decreases |value|
  {
    if value == [] {
      assert value + rest == rest && Slashes(pending) + value == Slashes(pending);
    } else {
      var tail := value[1..];
      assert (value + rest)[1..] == tail + rest;
      if value[0] == BACKSLASH {
        ScanPlain(tail, rest, pending + 1);
        assert Slashes(pending + 1) + tail == Slashes(pending) + value;
      } else {
        ScanPlain(tail, rest, 0);
        assert Slashes(pending) + [value[0]] + (Slashes(0) + tail) == Slashes(pending) + value;
      }
    }
  }

  lemma ScanPlainValue(value: Text, rest: Text)
    requires EndsArgument(rest)
    requires SPACE !in value && TAB !in value && QUOTE !in value
    ensures ScanArgument(value + rest, false, 0) == Scan(value, rest)
  {
    ScanPlain(value, rest, 0);
    assert Slashes(0) + value == value;
  }

  lemma {:induction false} ScanEnclosed(value: Text, rest: Text)
    requires EndsArgument(rest)
    ensures ScanArgument(Enclose(value) + rest, false, 0) == Scan(value, rest)
  {
    ScanEscaped(value, 0, rest);
    var body := Escape(value, 0) + ([QUOTE] + rest);
    EncloseUnfold(value, rest);
    assert ([QUOTE] + body)[1..] == body;
    assert Slashes(0) + value == value && [] + value == value;
  }

  lemma {:induction false} EncloseUnfold(value: Text, rest: Text)
    ensures Enclose(value) + rest == [QUOTE] + (Escape(value, 0) + ([QUOTE] + rest))
  {
  }

  /** `text` is one way of writing `value` as an argument. */
  ghost predicate ReadsAs(text: Text, value: Text) {
    && text != [] && !IsBlank(text[0])
    && forall rest :: EndsArgument(rest) ==> ScanArgument(text + rest, false, 0) == Scan(value, rest)
  }

  lemma QuotedReadsAs(value: Text)
    ensures ReadsAs(Quoted(value), value)
  {
    forall rest | EndsArgument(rest)
      ensures ScanArgument(Quoted(value) + rest, false, 0) == Scan(value, rest)
    {
      if NeedsQuotes(value) { ScanEnclosed(value, rest); } else { ScanPlainValue(value, rest); }
    }
    if !NeedsQuotes(value) { assert value[0] in value; }
  }

  lemma QuotedByDeployerReadsAs(value: Text)
    requires value != []
    ensures ReadsAs(QuotedByDeployer(value), value)
  {
    var quoted := QuotedByDeployer(value);
    forall rest | EndsArgument(rest)
      ensures ScanArgument(quoted + rest, false, 0) == Scan(value, rest)
    {
      if SPACE in value || TAB in value || QUOTE in value {
        ScanEnclosed(value, rest);
      } else {
        ScanPlainValue(value, rest);
      }
    }
  }

  lemma {:induction false} ParseSpaced(quoted: seq<Text>, values: seq<Text>)
    requires |quoted| == |values|
    requires forall i :: 0 <= i < |values| ==> ReadsAs(quoted[i], values[i])
    ensures ParseArguments(Spaced(quoted)) == values
  {
    if values != [] {
      ParseSpaced(quoted[1..], values[1..]);
      var rest := Spaced(quoted[1..]);
      assert Spaced(quoted)[1..] == quoted[0] + rest;
      assert EndsArgument(rest);
      assert ReadsAs(quoted[0], values[0]);
    }
  }

  // ------------------------------------------------------------- main results

  /** When the program name survives: a quote never does, and a trailing backslash
      is doubled as soon as the name has to be quoted. */
  ghost predicate ProgramSurvives(executable: Text) {
    && QUOTE !in executable
    && (NeedsQuotes(executable) && executable != [] ==> executable[|executable| - 1] != BACKSLASH)
  }

  /** The launcher's command line is read back as the program and its arguments
      exactly when the program name survives; the arguments always do. */
  lemma CommandLineRoundTrip(executable: Text, arguments: seq<Text>)
    ensures ParseCommandLine(Quoted(executable) + Spaced(QuotedAll(arguments))) == [executable] + arguments
       <==> ProgramSurvives(executable)
  {
    var tail := Spaced(QuotedAll(arguments));
    ParseQuotedAll(arguments);
    HeadDecides(ScanProgram(Quoted(executable) + tail, false).text, executable, arguments);
    if QUOTE in executable {
      ScanProgramDropsQuotes(Quoted(executable) + tail, false);
    } else {
      ScanProgramQuoted(executable, tail);
      ProgramReadsBack(executable);
    }
  }

  lemma HeadDecides(a: Text, b: Text, rest: seq<Text>)
    ensures [a] + rest == [b] + rest <==> a == b
  {
    assert ([a] + rest)[0] == a && ([b] + rest)[0] == b;
  }

  lemma ProgramReadsBack(executable: Text)
    requires QUOTE !in executable
    ensures (if NeedsQuotes(executable) then Escape(executable, 0) else executable) == executable <==>
      ProgramSurvives(executable)
  {
    EscapeTrailing(executable, 0);
    assert Slashes(0) + executable == executable;
  }

  lemma ParseQuotedAll(arguments: seq<Text>)
    ensures ParseArguments(Spaced(QuotedAll(arguments))) == arguments
  {
    forall i | 0 <= i < |arguments| ensures ReadsAs(QuotedAll(arguments)[i], arguments[i]) {
      QuotedReadsAs(arguments[i]);
    }
    ParseSpaced(QuotedAll(arguments), arguments);
  }

  /** The broker's line always gives back its arguments. */
  lemma JoinArgumentsRoundTrip(arguments: seq<Text>)
    ensures ParseArguments(Joined(arguments)) == arguments
  {
    if arguments != [] {
      QuotedReadsAs(arguments[0]);
      ParseQuotedAll(arguments[1..]);
      assert EndsArgument(Spaced(QuotedAll(arguments[1..])));
    }
  }

  function NonEmpty(values: seq<Text>): seq<Text> {
    if values == [] then []
    else (if values[0] == [] then [] else [values[0]]) + NonEmpty(values[1..])
  }

  lemma DeployerReadsOne(value: Text, rest: Text)
    requires EndsArgument(rest)
    ensures ParseArguments([SPACE] + QuotedByDeployer(value) + rest) == NonEmpty([value]) + ParseArguments(rest)
  {
    var line := [SPACE] + QuotedByDeployer(value) + rest;
    assert line[1..] == QuotedByDeployer(value) + rest;
    if value == [] {
      assert QuotedByDeployer(value) + rest == rest;
    } else {
      QuotedByDeployerReadsAs(value);
    }
  }

  lemma {:induction false} DeployerReadsNonEmpty(arguments: seq<Text>)
    ensures ParseArguments(Spaced(QuotedByDeployerAll(arguments))) == NonEmpty(arguments)
  {
    if arguments != [] {
      DeployerReadsNonEmpty(arguments[1..]);
      var quoted := QuotedByDeployerAll(arguments);
      assert quoted[1..] == QuotedByDeployerAll(arguments[1..]);
      DeployerReadsOne(arguments[0], Spaced(quoted[1..]));
    }
  }

  /** The deployer's quoter loses exactly the empty values. */
  lemma DeployerRoundTrip(arguments: seq<Text>)
    ensures ParseArguments(Spaced(QuotedByDeployerAll(arguments))) == NonEmpty(arguments)
    ensures ParseArguments(Spaced(QuotedByDeployerAll(arguments))) == arguments <==> [] !in arguments
  {
    DeployerReadsNonEmpty(arguments);
    NonEmptyShorter(arguments);
  }

  lemma NonEmptyShorter(values: seq<Text>)
    ensures |NonEmpty(values)| <= |values|
    ensures NonEmpty(values) == values <==> [] !in values
    ensures [] in values ==> |NonEmpty(values)| < |values|
  {
    if values != [] {
      NonEmptyShorter(values[1..]);
      assert values == [values[0]] + values[1..];
    }
  }

  // ------------------------------------------------------- the program's name

  lemma ScanProgramDropsQuotes(s: Text, quoted: bool)
    ensures QUOTE !in ScanProgram(s, quoted).text
  {
  }

  lemma {:induction false} ScanProgramBody(body: Text, rest: Text, quoted: bool)
    requires QUOTE !in body
    requires !quoted ==> SPACE !in body && TAB !in body
    ensures ScanProgram(body + rest, quoted)
         == Prepend(body, ScanProgram(rest, quoted))
  {
    if body == [] {
      assert body + rest == rest;
      assert [] + ScanProgram(rest, quoted).text == ScanProgram(rest, quoted).text;
    } else {
      ScanProgramBody(body[1..], rest, quoted);
      assert (body + rest)[1..] == body[1..] + rest;
      assert [body[0]] + (body[1..] + ScanProgram(rest, quoted).text) == body + ScanProgram(rest, quoted).text;
    }
  }

  lemma ScanProgramClose(tail: Text)
    requires EndsArgument(tail)
    ensures ScanProgram([QUOTE] + tail, true) == Scan([], tail)
  {
    assert ([QUOTE] + tail)[1..] == tail;
  }

  lemma ScanProgramEnclosed(body: Text, tail: Text)
    requires QUOTE !in body && EndsArgument(tail)
    ensures ScanProgram([QUOTE] + body + [QUOTE] + tail, false) == Scan(body, tail)
  {
    var line := [QUOTE] + body + [QUOTE] + tail;
    assert line[0] == QUOTE && line[1..] == body + ([QUOTE] + tail);
    ScanProgramBody(body, [QUOTE] + tail, true);
    ScanProgramClose(tail);
    assert body + [] == body;
  }

  lemma ScanProgramPlain(executable: Text, tail: Text)
    requires QUOTE !in executable && SPACE !in executable && TAB !in executable && EndsArgument(tail)
    ensures ScanProgram(executable + tail, false) == Scan(executable, tail)
  {
    ScanProgramBody(executable, tail, false);
    assert executable + [] == executable;
  }

  lemma ScanProgramQuoted(executable: Text, tail: Text)
    requires QUOTE !in executable && EndsArgument(tail)
    ensures ScanProgram(Quoted(executable) + tail, false)
         == Scan(if NeedsQuotes(executable) then Escape(executable, 0) else executable, tail)
  {
    if NeedsQuotes(executable) {
      EscapeTrailing(executable, 0);
      ScanProgramEnclosed(Escape(executable, 0), tail);
    } else {
      assert IsWhiteSpaceCode(SPACE) && IsWhiteSpaceCode(TAB);
      ScanProgramPlain(executable, tail);
    }
  }

  predicate EndsInSlash(s: Text) {
    s != [] && s[|s| - 1] == BACKSLASH
  }

  /** A common front neither makes nor hides a difference, and the end is the end of what follows it. */
  lemma CommonFront(front: Text, a: Text, b: Text)
    ensures front + a == front + b <==> a == b
    ensures a != [] ==> (EndsInSlash(front + a) <==> EndsInSlash(a))
  {
    if front + a == front + b {
      assert (front + a)[|front|..] == a && (front + b)[|front|..] == b;
    }
  }

  lemma EscapeFront(value: Text, pending: nat)
    requires value != [] && value[0] != BACKSLASH && value[0] != QUOTE
    ensures Escape(value, pending) == (Slashes(pending) + [value[0]]) + Escape(value[1..], 0)
    ensures Slashes(pending) + value == (Slashes(pending) + [value[0]]) + value[1..]
  {
  }

  /** Without a quote in it, a value is escaped by adding backslashes after a trailing one. */
  lemma {:induction false} EscapeTrailing(value: Text, pending: nat)
    requires QUOTE !in value
    ensures QUOTE !in Escape(value, pending)
    ensures Escape(value, pending) == Slashes(pending) + value <==> !EndsInSlash(Slashes(pending) + value)
    ensures |Escape(value, pending)| >= pending + |value|
    decreases |value|
  {
    if value == [] {
      assert Slashes(pending) + value == Slashes(pending);
    } else {
      var tail := value[1..];
      assert value == [value[0]] + tail;
      if value[0] == BACKSLASH {
        EscapeTrailing(tail, pending + 1);
        assert Slashes(pending + 1) + tail == Slashes(pending) + value;
      } else {
        EscapeTrailing(tail, 0);
        assert Slashes(0) + tail == tail;
        EscapeFront(value, pending);
        CommonFront(Slashes(pending) + [value[0]], Escape(tail, 0), tail);
        CommonFront(Slashes(pending) + [value[0]], tail, tail);
      }
    }
  }
}
