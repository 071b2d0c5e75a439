/** Polling a growing output file for text, at most so many bytes at a time, without
    ever cutting a character: the Runtime's `read_utf8_range` and `read_output_text`
    against the UTF-8 grammar of section 4 of RFC 3629.
 */
module Utf8Stream {

  import opened Types

  // --------------------------------------------------------------- the grammar

  predicate IsTail(b: Byte) {
    0x80 <= b <= 0xBF
  }

  /** One `UTF8-char` of the grammar. */
  predicate IsCharacter(c: Bytes) {
    match |c|
    case 1 => c[0] <= 0x7F
    case 2 => 0xC2 <= c[0] <= 0xDF && IsTail(c[1])
    case 3 =>
      && IsTail(c[2])
      && (|| (c[0] == 0xE0 && 0xA0 <= c[1] <= 0xBF)
          || (0xE1 <= c[0] <= 0xEC && IsTail(c[1]))
          || (c[0] == 0xED && 0x80 <= c[1] <= 0x9F)
          || (0xEE <= c[0] <= 0xEF && IsTail(c[1])))
    case 4 =>
      && IsTail(c[2]) && IsTail(c[3])
      && (|| (c[0] == 0xF0 && 0x90 <= c[1] <= 0xBF)
          || (0xF1 <= c[0] <= 0xF3 && IsTail(c[1]))
          || (c[0] == 0xF4 && 0x80 <= c[1] <= 0x8F))
    case _ => false
  }

  /** `UTF8-octets`: some sequence of characters. */
  ghost predicate WellFormed(s: Bytes) {
    s == [] || exists n: nat :: StartsWithCharacter(s, n) && WellFormed(s[n..])
  }

  predicate StartsWithCharacter(s: Bytes, n: nat) {
    0 < n <= |s| && IsCharacter(s[..n])
  }

  /** `at` lies between two characters of `s`. */
  ghost predicate Boundary(s: Bytes, at: nat) {
    at <= |s| && WellFormed(s[..at]) && WellFormed(s[at..])
  }

  // ------------------------------------------------- `std::str::from_utf8`

  /** The first step of the validator: a character of some width, a sequence broken
      after some bytes, or one the input ends inside of. */
  datatype Step = Character(width: nat) | Broken(length: nat) | CutOff

  function Width(b: Byte): nat {
    if b <= 0x7F then 1
    else if 0xC2 <= b <= 0xDF then 2
    else if 0xE0 <= b <= 0xEF then 3
    else if 0xF0 <= b <= 0xF4 then 4
    else 0
  }

  predicate SecondFits(first: Byte, second: Byte) {
    && (if first == 0xE0 then 0xA0 else if first == 0xF0 then 0x90 else 0x80) <= second
    && second <= (if first == 0xED then 0x9F else if first == 0xF4 then 0x8F else 0xBF)
  }

  function FirstStep(s: Bytes): (step: Step)
    requires s != []
    ensures step.Character? ==> 0 < step.width <= |s|
    ensures step.Broken? ==> 0 < step.length <= |s|
  {
    var width := Width(s[0]);
    if width == 1 then Character(1)
    else if width == 0 then Broken(1)
    else if |s| < 2 then CutOff
    else if !SecondFits(s[0], s[1]) then Broken(1)
    else if width == 2 then Character(2)
    else if |s| < 3 then CutOff
    else if !IsTail(s[2]) then Broken(2)
    else if width == 3 then Character(3)
    else if |s| < 4 then CutOff
    else if !IsTail(s[3]) then Broken(3)
    else Character(4)
  }

  /** `error_len` is absent exactly when the input ends inside a character. */
  datatype Validation = Valid | Invalid(validUpTo: nat, cutOff: bool)

  function FromUtf8(s: Bytes): (v: Validation)
    ensures v.Invalid? ==> v.validUpTo < |s|
    decreases |s|
  {
    if s == [] then Valid
    else match FirstStep(s)
      case CutOff => Invalid(0, true)
      case Broken(_) => Invalid(0, false)
      case Character(width) =>
        match FromUtf8(s[width..])
        case Valid => Valid
        case Invalid(validUpTo, cutOff) => Invalid(width + validUpTo, cutOff)
  }

  /** U+FFFD. */
  const REPLACEMENT: Bytes := [0xEF, 0xBF, 0xBD]

  /** `String::from_utf8_lossy`, as UTF-8: every broken piece becomes U+FFFD. */
  function Lossy(s: Bytes): Bytes
    decreases |s|
  {
    if s == [] then []
    else match FirstStep(s)
      case CutOff => REPLACEMENT
      case Broken(length) => REPLACEMENT + Lossy(s[length..])
      case Character(width) => s[..width] + Lossy(s[width..])
  }

  // --------------------------------------------------------------- the readers

  datatype Failure = OffsetTooLarge | OffsetInsideCharacter | BoundTooSmall
  datatype Result<+T> = Ok(value: T) | Err(error: Failure)
  datatype TextRange = TextRange(content: Bytes, nextOffset: nat)
  datatype OutputView = OutputView(content: Bytes, nextOffset: nat, available: nat, eof: bool)

  function Min(a: nat, b: nat): nat {
    if a < b then a else b
  }

  /** How much of a piece may be delivered: all of it, unless it ends inside a character. */
  function SafeLength(piece: Bytes): (n: nat)
    ensures n <= |piece|
  {
    match FromUtf8(piece)
    case Valid => |piece|
    case Invalid(validUpTo, cutOff) => if cutOff then validUpTo else |piece|
  }

  function RangeOf(file: Bytes, offset: nat, maxBytes: nat, terminal: bool): Result<TextRange> {
    if offset > |file| then Err(OffsetTooLarge)
    else
      var piece := file[offset..][..Min(maxBytes, |file| - offset)];
      var safe := SafeLength(piece);
      if piece == [] then Ok(TextRange([], offset))
      else if offset > 0 && IsTail(piece[0]) then Err(OffsetInsideCharacter)
      else if safe > 0 then Ok(TextRange(Lossy(piece[..safe]), offset + safe))
      else if terminal || offset + |piece| < |file| then Err(BoundTooSmall)
      else Ok(TextRange([], offset))
  }

  /** `available` was measured before the read; the file may have grown since. */
  method ReadUtf8Range(file: Bytes, offset: nat, maxBytes: nat, available: nat, terminal: bool)
    returns (range: Result<TextRange>)
    requires available <= |file|
    ensures range == RangeOf(file[..available], offset, maxBytes, terminal)
  {
    if offset > available {
      return Err(OffsetTooLarge);
    }
    if maxBytes == 0 || offset == available {
      return Ok(TextRange([], offset));
    }
    var readLimit := Min(maxBytes, available - offset);
    var bytes := file[offset..][..readLimit];
    assert bytes == file[..available][offset..][..readLimit];
    if offset > 0 && |bytes| > 0 && IsTail(bytes[0]) {
      return Err(OffsetInsideCharacter);
    }
    var validation := FromUtf8(bytes);
    var safeLen := |bytes|;
    if validation.Invalid? && validation.cutOff {
      safeLen := validation.validUpTo;
    }
    if safeLen == 0 && |bytes| > 0 {
      if !terminal && offset + |bytes| >= available {
        return Ok(TextRange([], offset));
      }
      return Err(BoundTooSmall);
    }
    bytes := bytes[..safeLen];
    return Ok(TextRange(Lossy(bytes), offset + safeLen));
  }

  /** A reader following one output file with an explicit offset. */
  class OutputFollower {
    /** The file, or its absence before the first byte is captured. */
    var created: bool
    var file: Bytes
    var offset: nat
    var delivered: Bytes

    constructor ()
      ensures !created && file == [] && offset == 0 && delivered == []
    {
      created, file, offset, delivered := false, [], 0, [];
    }

    method Append(bytes: Bytes)
      modifies this
      ensures created && file == old(file) + bytes && offset == old(offset) && delivered == old(delivered)
    {
      created, file := true, file + bytes;
    }

    /** One call of `read_output_text` with the last returned offset. */
    method Poll(maxBytes: nat, terminal: bool) returns (view: Result<OutputView>)
      requires !created ==> file == []
      modifies this
      ensures created == old(created) && file == old(file)
      ensures Cursor(offset, delivered) == Advance(old(Cursor(offset, delivered)), file, maxBytes, terminal)
      ensures view == ViewOf(file, old(offset), maxBytes, terminal)
    {
      var available := if created then |file| else 0;
      if offset > available {
        return Err(OffsetTooLarge);
      }
      if maxBytes == 0 || !created {
        assert file[offset..][..Min(maxBytes, |file| - offset)] == [];
        assert delivered + [] == delivered;
        return Ok(OutputView([], offset, available, terminal && offset >= available));
      }
      assert file[..available] == file;
      var range := ReadUtf8Range(file, offset, maxBytes, available, terminal);
      if range.Err? {
        return Err(range.error);
      }
      delivered := delivered + range.value.content;
      offset := range.value.nextOffset;
      return Ok(OutputView(range.value.content, offset, available, terminal && offset >= available));
    }
  }

  function ViewOf(file: Bytes, offset: nat, maxBytes: nat, terminal: bool): Result<OutputView> {
    match RangeOf(file, offset, maxBytes, terminal)
    case Err(error) => Err(error)
    case Ok(range) => Ok(OutputView(range.content, range.nextOffset, |file|, terminal && range.nextOffset >= |file|))
  }

  /** Where a follower stands and what it has been given so far. */
  datatype Cursor = Cursor(offset: nat, delivered: Bytes)

  function Advance(cursor: Cursor, file: Bytes, maxBytes: nat, terminal: bool): Cursor {
    match RangeOf(file, cursor.offset, maxBytes, terminal)
    case Err(_) => cursor
    case Ok(range) => Cursor(range.nextOffset, cursor.delivered + range.content)
  }

  // ------------------------------------------- the validator meets the grammar

  /** The validator's first step is a character exactly when the grammar has one. */
  lemma FirstStepIsGrammar(s: Bytes, n: nat)
    requires s != []
    ensures FirstStep(s) == Character(n) <==> StartsWithCharacter(s, n)
  {
  }

  lemma WellFormedUnfold(s: Bytes) returns (n: nat)
    requires WellFormed(s) && s != []
    ensures StartsWithCharacter(s, n) && WellFormed(s[n..]) && FirstStep(s) == Character(n)
  {
    n :| StartsWithCharacter(s, n) && WellFormed(s[n..]);
    FirstStepIsGrammar(s, n);
  }

  /** `from_utf8` accepts exactly the well-formed texts. */
  lemma {:induction false} FromUtf8IsGrammar(s: Bytes)
    ensures FromUtf8(s).Valid? <==> WellFormed(s)
    decreases |s|
  {
    if s != [] {
      if WellFormed(s) {
        var n := WellFormedUnfold(s);
        FromUtf8IsGrammar(s[n..]);
      }
      if FromUtf8(s).Valid? {
        var n := FirstStep(s).width;
        FirstStepIsGrammar(s, n);
        FromUtf8IsGrammar(s[n..]);
        assert StartsWithCharacter(s, n);
      }
    }
  }

  /** A character begins like this but is longer. */
  ghost predicate Begins(p: Bytes) {
    exists c: Bytes :: IsCharacter(c) && |p| < |c| && c[..|p|] == p
  }

  /** The shortest way to complete what begins a character. */
  function Completion(p: Bytes): Bytes
    requires p != []
  {
    var second := if p[0] == 0xE0 then 0xA0 else if p[0] == 0xF0 then 0x90 else 0x80;
    var tails := if |p| == 1 then [second, 0x80, 0x80] else [0x80, 0x80, 0x80];
    if |p| <= Width(p[0]) <= |p| + 3 then p + tails[..Width(p[0]) - |p|] else p
  }

  /** The input ends inside a character for the validator exactly when a character begins like it. A broken piece is
      the longest that begins a character, or one byte where none does: the substitution of maximal subparts that
      section 3.9 of the Unicode Standard recommends. */
  lemma BrokenIsMaximal(s: Bytes)
    requires s != []
    ensures FirstStep(s).CutOff? <==> Begins(s)
    ensures FirstStep(s).Broken? ==>
      var n := FirstStep(s).length;
      if n < |s| && Begins(s[..n]) then !Begins(s[..n + 1]) && !IsCharacter(s[..n + 1])
      else n == 1 && !Begins(s[..1]) && !IsCharacter(s[..1])
  {
    BeginsExactly(s);
    if FirstStep(s).Broken? {
      var n := FirstStep(s).length;
      BeginsExactly(s[..n]);
      if n < |s| { BeginsExactly(s[..n + 1]); }
    }
  }

  lemma BeginsExactly(p: Bytes)
    requires p != []
    ensures Begins(p) <==> FirstStep(p).CutOff?
  {
    if Begins(p) {
      var c: Bytes :| IsCharacter(c) && |p| < |c| && c[..|p|] == p;
      assert forall i | 0 <= i < |p| :: p[i] == c[..|p|][i] == c[i];
    }
    if FirstStep(p).CutOff? {
      var c := Completion(p);
      assert c[..|p|] == p;
      assert IsCharacter(c);
    }
  }

  /** Whatever the bytes, what is delivered is text, and it is the bytes themselves exactly when they are. */
  lemma {:induction false} LossyIsText(s: Bytes)
    ensures WellFormed(Lossy(s)) && (Lossy(s) == s <==> WellFormed(s))
    decreases |s|
  {
    if WellFormed(s) {
      LossyOfWellFormed(s);
    } else if FirstStep(s).Character? {
      var n := FirstStep(s).width;
      FirstStepIsGrammar(s, n);
      LossyIsText(s[n..]);
      CharacterWellFormed(s[..n]);
      WellFormedAppend(s[..n], Lossy(s[n..]));
    } else {
      CharacterWellFormed(REPLACEMENT);
      if FirstStep(s).Broken? {
        LossyIsText(s[FirstStep(s).length..]);
        WellFormedAppend(REPLACEMENT, Lossy(s[FirstStep(s).length..]));
      }
    }
  }

  lemma {:induction false} LossyOfWellFormed(s: Bytes)
    requires WellFormed(s)
    ensures Lossy(s) == s
    decreases |s|
  {
    if s != [] {
      var n := WellFormedUnfold(s);
      LossyOfWellFormed(s[n..]);
      LossyUnfold(s, n);
      Rejoin(s, n);
    }
  }

  lemma LossyUnfold(s: Bytes, n: nat)
    requires 0 < n <= |s| && FirstStep(s) == Character(n)
    ensures Lossy(s) == s[..n] + Lossy(s[n..])
  {
  }

  lemma Rejoin(s: Bytes, n: nat)
    requires n <= |s|
    ensures s[..n] + s[n..] == s
  {
  }

  /** Cutting at n and then at k. */
  lemma CutTwice(s: Bytes, n: nat, k: nat)
    requires n + k <= |s|
    ensures s[n..][..k] == s[..n + k][n..]
    ensures s[..n + k][..n] == s[..n]
    ensures s[..n] + s[n..][..k] == s[..n + k]
    ensures s[n..][k..] == s[n + k..]
  {
  }

  lemma {:induction false} WellFormedAppend(a: Bytes, b: Bytes)
    requires WellFormed(a) && WellFormed(b)
    ensures WellFormed(a + b)
    decreases |a|
  {
    if a == [] {
      assert a + b == b;
    } else {
      var n := WellFormedUnfold(a);
      WellFormedAppend(a[n..], b);
      AppendSlices(a, b, n);
      SameFirstCharacter(a, a + b, n);
      WellFormedFold(a + b, n);
    }
  }

  lemma AppendSlices(a: Bytes, b: Bytes, n: nat)
    requires n <= |a|
    ensures (a + b)[..n] == a[..n] && (a + b)[n..] == a[n..] + b
  {
  }

  lemma WellFormedFold(s: Bytes, n: nat)
    requires StartsWithCharacter(s, n) && WellFormed(s[n..])
    ensures WellFormed(s)
  {
  }

  lemma SameFirstCharacter(s: Bytes, t: Bytes, n: nat)
    requires StartsWithCharacter(s, n) && n <= |t| && t[..n] == s[..n]
    ensures StartsWithCharacter(t, n) && FirstStep(t) == Character(n)
  {
    FirstStepIsGrammar(t, n);
  }

  lemma SafeLengthSkip(piece: Bytes, n: nat)
    requires StartsWithCharacter(piece, n)
    ensures SafeLength(piece) == n + SafeLength(piece[n..])
    ensures WellFormed(piece) <==> WellFormed(piece[n..])
  {
    FirstStepIsGrammar(piece, n);
    FromUtf8IsGrammar(piece);
    FromUtf8IsGrammar(piece[n..]);
  }

  lemma BoundarySkip(text: Bytes, n: nat, safe: nat)
    requires StartsWithCharacter(text, n) && Boundary(text[n..], safe)
    ensures Boundary(text, n + safe)
  {
    CharacterWellFormed(text[..n]);
    WellFormedAppend(text[..n], text[n..][..safe]);
    CutTwice(text, n, safe);
  }

  /** A piece cut from the front of a well-formed text is never found broken: the
      deliverable part is whole characters, and fewer than four bytes stay behind. */
  lemma {:induction false} SafeLengthOfPrefix(text: Bytes, length: nat)
    requires WellFormed(text) && length <= |text|
    ensures var safe := SafeLength(text[..length]);
            safe <= length < safe + 4 && Boundary(text, safe) && (safe == length <==> WellFormed(text[..length]))
    decreases |text|
  {
    StartIsBoundary(text);
    if length > 0 {
      var n := WellFormedUnfold(text);
      if length < n {
        CutPrefix(text, n, length);
      } else {
        SafeLengthOfPrefix(text[n..], length - n);
        SafeLengthStep(text, n, length);
      }
    }
  }

  lemma SafeLengthStep(text: Bytes, n: nat, length: nat)
    requires StartsWithCharacter(text, n) && n <= length <= |text|
    requires Boundary(text[n..], SafeLength(text[n..][..length - n]))
    ensures SafeLength(text[..length]) == n + SafeLength(text[n..][..length - n])
      && Boundary(text, SafeLength(text[..length]))
    ensures WellFormed(text[..length]) <==> WellFormed(text[n..][..length - n])
  {
    LongerPrefix(text, n, length);
    BoundarySkip(text, n, SafeLength(text[n..][..length - n]));
  }

  lemma StartIsBoundary(text: Bytes)
    requires WellFormed(text)
    ensures Boundary(text, 0) && SafeLength(text[..0]) == 0 && WellFormed(text[..0])
  {
    assert text[..0] == [] && text[0..] == text;
  }

  lemma CutPrefix(text: Bytes, n: nat, length: nat)
    requires StartsWithCharacter(text, n) && 0 < length < n
    ensures SafeLength(text[..length]) == 0 && length < 4 && !WellFormed(text[..length])
  {
    CutCharacter(text, n, length);
    FromUtf8IsGrammar(text[..length]);
  }

  lemma LongerPrefix(text: Bytes, n: nat, length: nat)
    requires StartsWithCharacter(text, n) && n <= length <= |text|
    ensures SafeLength(text[..length]) == n + SafeLength(text[n..][..length - n])
    ensures WellFormed(text[..length]) <==> WellFormed(text[n..][..length - n])
  {
    CutTwice(text, n, length - n);
    SameFirstCharacter(text, text[..length], n);
    SafeLengthSkip(text[..length], n);
  }

  lemma CharacterWellFormed(c: Bytes)
    requires IsCharacter(c)
    ensures WellFormed(c)
  {
    assert c[..|c|] == c && c[|c|..] == [];
    assert StartsWithCharacter(c, |c|);
  }

  lemma CutCharacter(text: Bytes, n: nat, length: nat)
    requires StartsWithCharacter(text, n) && 0 < length < n
    ensures FromUtf8(text[..length]) == Invalid(0, true) && n <= 4
  {
    FirstStepIsGrammar(text, n);
  }

  lemma FirstByteIsNoTail(text: Bytes)
    requires WellFormed(text) && text != []
    ensures !IsTail(text[0])
  {
    var n := WellFormedUnfold(text);
    assert text[..n][0] == text[0];
  }

  // -------------------------------------------------------------- main results

  /** One read of any file, well formed or not: when it fails and how, and how far it gets. The end is reported
      exactly on a finished file that is read to its last byte. */
  lemma ReadFailsExactlyWhen(file: Bytes, offset: nat, maxBytes: nat, terminal: bool)
    ensures var view := ViewOf(file, offset, maxBytes, terminal);
      var within := offset < |file| && maxBytes > 0;
      var inside := within && offset > 0 && 0x80 <= file[offset] <= 0xBF;
      && (view == Err(OffsetTooLarge) <==> offset > |file|)
      && (view == Err(OffsetInsideCharacter) <==> inside)
      && (view == Err(BoundTooSmall) <==>
            within && !inside && Begins(Piece(file, offset, maxBytes)) && (terminal || offset + maxBytes < |file|))
      && (view.Ok? ==>
            && view.value.available == |file| && WellFormed(view.value.content)
            && offset <= view.value.nextOffset <= offset + maxBytes && view.value.nextOffset <= |file|
            && (view.value.eof <==> terminal && view.value.nextOffset == |file|)
            && (view.value.nextOffset == offset <==> !within || Begins(Piece(file, offset, maxBytes))))
  {
    if offset <= |file| {
      var piece := Piece(file, offset, maxBytes);
      if piece != [] {
        BrokenIsMaximal(piece);
      }
      LossyIsText(piece[..SafeLength(piece)]);
    }
  }

  /** The follower's state over a file that is a prefix of well-formed `text`. */
  ghost predicate Following(cursor: Cursor, file: Bytes, text: Bytes) {
    && WellFormed(text) && file <= text
    && cursor.offset <= |file| && Boundary(text, cursor.offset)
    && cursor.delivered == text[..cursor.offset]
  }

  /** One poll of at least four bytes: it delivers exactly the next bytes, never moves
      back and never leaves a boundary. It fails only on a finished file that ends
      inside a character, and it stands still only there or at the end. */
  lemma {:induction false} PollStep(cursor: Cursor, file: Bytes, text: Bytes, maxBytes: nat, terminal: bool)
    requires Following(cursor, file, text) && maxBytes >= 4
    ensures var next := Advance(cursor, file, maxBytes, terminal);
            var stuck := cursor.offset < |file| && SafeLength(file[cursor.offset..]) == 0;
            && Following(next, file, text)
            && cursor.offset <= next.offset
            && (RangeOf(file, cursor.offset, maxBytes, terminal).Err? <==> terminal && stuck)
            && (next.offset == cursor.offset <==> cursor.offset == |file| || stuck)
  {
    var offset := cursor.offset;
    RangeStep(file, text, offset, maxBytes, terminal);
    var safe := SafeLength(Piece(file, offset, maxBytes));
    SliceAppend(text, offset, safe);
    AdvanceFromRange(cursor, file, maxBytes, terminal);
  }

  lemma AdvanceFromRange(cursor: Cursor, file: Bytes, maxBytes: nat, terminal: bool)
    ensures Advance(cursor, file, maxBytes, terminal) ==
            match RangeOf(file, cursor.offset, maxBytes, terminal)
            case Err(_) => cursor
            case Ok(range) =>
              if range == TextRange([], cursor.offset) then cursor
                else Cursor(range.nextOffset, cursor.delivered + range.content)
  {
    assert cursor.delivered + [] == cursor.delivered;
  }

  lemma SliceAppend(text: Bytes, offset: nat, k: nat)
    requires offset + k <= |text|
    ensures text[..offset] + text[offset..offset + k] == text[..offset + k]
  {
  }

  function Piece(file: Bytes, offset: nat, maxBytes: nat): Bytes
    requires offset <= |file|
  {
    file[offset..][..Min(maxBytes, |file| - offset)]
  }

  lemma {:induction false} RangeStep(file: Bytes, text: Bytes, offset: nat, maxBytes: nat, terminal: bool)
    requires WellFormed(text) && file <= text && offset <= |file| && Boundary(text, offset) && maxBytes >= 4
    ensures var safe := SafeLength(Piece(file, offset, maxBytes));
            && offset + safe <= |file| && Boundary(text, offset + safe)
            && (safe == 0 <==> offset == |file| || SafeLength(file[offset..]) == 0)
            && RangeOf(file, offset, maxBytes, terminal)
               == if safe > 0 then Ok(TextRange(text[offset..offset + safe], offset + safe))
                  else if offset < |file| && terminal then Err(BoundTooSmall)
                  else Ok(TextRange([], offset))
  {
    var piece := Piece(file, offset, maxBytes);
    PieceFacts(file, text, offset, piece);
    RangeFromPiece(file, offset, maxBytes, terminal);
  }

  lemma RangeFromPiece(file: Bytes, offset: nat, maxBytes: nat, terminal: bool)
    requires offset <= |file| && maxBytes >= 4
    requires var piece := Piece(file, offset, maxBytes);
             && (piece != [] ==> !IsTail(piece[0]))
             && SafeLength(piece) <= |piece|
             && (SafeLength(piece) == 0 ==> offset + |piece| == |file|)
    ensures var piece := Piece(file, offset, maxBytes);
            var safe := SafeLength(piece);
            RangeOf(file, offset, maxBytes, terminal)
              == if safe > 0 then Ok(TextRange(Lossy(piece[..safe]), offset + safe))
                 else if offset < |file| && terminal then Err(BoundTooSmall)
                 else Ok(TextRange([], offset))
  {
  }

  lemma PieceFacts(file: Bytes, text: Bytes, offset: nat, piece: Bytes)
    requires WellFormed(text) && file <= text && Boundary(text, offset)
    requires offset + |piece| <= |file| && (|piece| >= 4 || offset + |piece| == |file|)
    requires piece == file[offset..][..|piece|]
    ensures var safe := SafeLength(piece);
            && safe <= |piece| && Boundary(text, offset + safe)
            && (piece != [] ==> !IsTail(piece[0]))
            && Lossy(piece[..safe]) == text[offset..offset + safe]
            && (safe == 0 <==> offset == |file| || SafeLength(file[offset..]) == 0)
            && (safe == 0 ==> offset + |piece| == |file|)
  {
    PieceOfPrefix(file, text, offset, |piece|);
    PieceIsWhole(text, offset, piece);
    if piece != [] {
      FirstByteIsNoTail(text[offset..]);
      StuckPiece(file, text, offset, |piece|);
    }
  }

  lemma PieceIsWhole(text: Bytes, offset: nat, piece: Bytes)
    requires Boundary(text, offset) && offset + |piece| <= |text| && piece == text[offset..][..|piece|]
    ensures var safe := SafeLength(piece);
            safe <= |piece| && Boundary(text, offset + safe) && Lossy(piece[..safe]) == text[offset..offset + safe]
  {
    SafeLengthOfPrefix(text[offset..], |piece|);
    FrontOfPiece(text, offset, piece, SafeLength(piece));
  }

  lemma FrontOfPiece(text: Bytes, offset: nat, piece: Bytes, k: nat)
    requires offset + |piece| <= |text| && piece == text[offset..][..|piece|] && k <= |piece|
    requires Boundary(text, offset) && Boundary(text[offset..], k)
    ensures Boundary(text, offset + k) && Lossy(piece[..k]) == text[offset..offset + k]
  {
    WholeCharacters(text, offset, k);
    StartOfPiece(text, offset, piece, k);
  }

  lemma StartOfPiece(text: Bytes, offset: nat, piece: Bytes, k: nat)
    requires offset + |piece| <= |text| && piece == text[offset..][..|piece|] && k <= |piece|
    ensures piece[..k] == text[offset..offset + k]
  {
  }

  lemma WholeCharacters(text: Bytes, offset: nat, count: nat)
    requires Boundary(text, offset) && Boundary(text[offset..], count)
    ensures Boundary(text, offset + count)
    ensures Lossy(text[offset..offset + count]) == text[offset..offset + count]
  {
    BoundaryCompose(text, offset, count);
    assert text[offset..offset + count] == text[offset..][..count];
    LossyOfWellFormed(text[offset..offset + count]);
  }

  lemma PieceOfPrefix(file: Bytes, text: Bytes, offset: nat, length: nat)
    requires file <= text && offset + length <= |file|
    ensures file[offset..][..length] == text[offset..][..length]
  {
  }

  lemma BoundaryCompose(text: Bytes, offset: nat, safe: nat)
    requires Boundary(text, offset) && Boundary(text[offset..], safe)
    ensures Boundary(text, offset + safe)
  {
    WellFormedAppend(text[..offset], text[offset..][..safe]);
    CutTwice(text, offset, safe);
  }

  /** Nothing is deliverable from a four-byte piece only if nothing is from the whole rest. */
  lemma StuckPiece(file: Bytes, text: Bytes, offset: nat, length: nat)
    requires WellFormed(text) && file <= text && Boundary(text, offset) && offset < |file|
    requires 0 < length <= |file| - offset && (length >= 4 || length == |file| - offset)
    ensures SafeLength(file[offset..][..length]) == 0 <==> SafeLength(file[offset..]) == 0
    ensures SafeLength(file[offset..][..length]) == 0 ==> length == |file| - offset
  {
    var rest := text[offset..];
    PieceOfPrefix(file, text, offset, length);
    PieceOfPrefix(file, text, offset, |file| - offset);
    assert file[offset..][..|file| - offset] == file[offset..];
    StuckPrefix(rest, length, |file| - offset);
  }

  lemma StuckPrefix(rest: Bytes, length: nat, total: nat)
    requires WellFormed(rest) && 0 < length <= total <= |rest| && (length >= 4 || length == total)
    ensures SafeLength(rest[..length]) == 0 <==> SafeLength(rest[..total]) == 0
    ensures SafeLength(rest[..length]) == 0 ==> length == total
  {
    SafeLengthOfPrefix(rest, length);
    SafeLengthOfPrefix(rest, total);
  }

  datatype Event = Append(bytes: Bytes) | Poll(maxBytes: nat)

  datatype Session = Session(cursor: Cursor, file: Bytes, failures: nat)

  function After(session: Session, event: Event): Session {
    match event
    case Append(bytes) => session.(file := session.file + bytes)
    case Poll(maxBytes) =>
      session.(cursor := Advance(session.cursor, session.file, maxBytes, false),
               failures := session.failures + if ViewOf(session.file, session.cursor.offset, maxBytes, false).Err?
                 then 1 else 0)
  }

  function Run(session: Session, events: seq<Event>): Session
    decreases |events|
  {
    if events == [] then session else Run(After(session, events[0]), events[1..])
  }

  lemma {:induction false} RunGrowsFile(session: Session, events: seq<Event>)
    ensures session.file <= Run(session, events).file
    decreases |events|
  {
    if events != [] {
      RunGrowsFile(After(session, events[0]), events[1..]);
    }
  }

  /** Any interleaving of appends and polls, while the file is being written. */
  lemma {:induction false} FollowingRun(session: Session, events: seq<Event>, text: Bytes)
    requires Following(session.cursor, session.file, text)
    requires Run(session, events).file <= text
    requires forall i :: 0 <= i < |events| && events[i].Poll? ==> events[i].maxBytes >= 4
    ensures var last := Run(session, events);
            && Following(last.cursor, last.file, text)
            && last.failures == session.failures
            && session.cursor.offset <= last.cursor.offset
            && last.cursor.delivered == last.file[..last.cursor.offset]
    decreases |events|
  {
    if events != [] {
      var next := After(session, events[0]);
      if events[0].Poll? {
        PollStep(session.cursor, session.file, text, events[0].maxBytes, false);
      } else {
        RunGrowsFile(next, events[1..]);
      }
      FollowingRun(next, events[1..], text);
    }
  }

  function PollAll(cursor: Cursor, file: Bytes, bounds: seq<nat>): Cursor
    decreases |bounds|
  {
    if bounds == [] then cursor
    else PollAll(Advance(cursor, file, bounds[0], true), file, bounds[1..])
  }

  /** On the finished, well-formed file every poll short of the end advances, so as
      many polls as bytes are left reach the end, with everything delivered. */
  lemma {:induction false} FinishedFileIsReadToTheEnd(cursor: Cursor, file: Bytes, bounds: seq<nat>)
    requires Following(cursor, file, file)
    requires |bounds| >= |file| - cursor.offset
    requires forall i :: 0 <= i < |bounds| ==> bounds[i] >= 4
    ensures PollAll(cursor, file, bounds) == Cursor(|file|, file)
    decreases |bounds|
  {
    if bounds != [] {
      NeverStuck(cursor, file);
      PollStep(cursor, file, file, bounds[0], true);
      FinishedFileIsReadToTheEnd(Advance(cursor, file, bounds[0], true), file, bounds[1..]);
    } else {
      assert file[..|file|] == file;
    }
  }

  lemma NeverStuck(cursor: Cursor, file: Bytes)
    requires Following(cursor, file, file)
    ensures cursor.offset < |file| ==> SafeLength(file[cursor.offset..]) > 0
  {
    var rest := file[cursor.offset..];
    assert rest[..|rest|] == rest;
    SafeLengthOfPrefix(rest, |rest|);
  }

  /** A finished file ends in a readable way exactly when it is well formed: one that
      was cut inside a character leaves every later poll at the cut with an error. */
  lemma CutFileNeverEnds(text: Bytes, length: nat, maxBytes: nat)
    requires WellFormed(text) && length <= |text| && maxBytes >= 4
    ensures var file := text[..length];
            var at := SafeLength(file);
            && Boundary(text, at)
            && (ViewOf(file, at, maxBytes, true).Ok? <==> WellFormed(file))
            && (ViewOf(file, at, maxBytes, true).Ok? ==> ViewOf(file, at, maxBytes, true).value.eof)
  {
    var file := text[..length];
    var at := SafeLength(file);
    CutFacts(text, length);
    RangeStep(file, text, at, maxBytes, true);
  }

  lemma CutFacts(text: Bytes, length: nat)
    requires WellFormed(text) && length <= |text|
    ensures var file := text[..length];
            var at := SafeLength(file);
            at <= length && Boundary(text, at) && SafeLength(file[at..]) == 0 && (at == length <==> WellFormed(file))
  {
    SafeLengthOfPrefix(text, length);
    RestStaysCut(text, length);
  }

  lemma {:induction false} RestStaysCut(text: Bytes, length: nat)
    requires WellFormed(text) && length <= |text|
    ensures SafeLength(text[..length][SafeLength(text[..length])..]) == 0
    decreases |text|
  {
    if length > 0 {
      var n := WellFormedUnfold(text);
      if length < n {
        CutCharacter(text, n, length);
        assert text[..length][0..] == text[..length];
      } else {
        RestStaysCut(text[n..], length - n);
        RestAfterFirst(text, n, length);
      }
    }
  }

  lemma RestAfterFirst(text: Bytes, n: nat, length: nat)
    requires StartsWithCharacter(text, n) && n <= length <= |text|
    ensures text[..length][SafeLength(text[..length])..] ==
      text[n..][..length - n][SafeLength(text[n..][..length - n])..]
  {
    LongerPrefix(text, n, length);
    DropTwice(text, n, length, SafeLength(text[n..][..length - n]));
  }

  lemma DropTwice(text: Bytes, n: nat, length: nat, k: nat)
    requires n + k <= length <= |text|
    ensures text[..length][n + k..] == text[n..][..length - n][k..]
  {
  }
}
