/** Values that several parts of the Runtime share. */
module Types {

  datatype Option<+T> = None | Some(value: T)

  type Byte = b: int | 0 <= b < 0x100
  type Bytes = seq<Byte>

  /** Unicode White_Space as a code point: what `char::is_whitespace` of Rust and `Char.IsWhiteSpace` of .NET test. */
  predicate IsWhiteSpaceCode(c: int) {
    || 0x09 <= c <= 0x0D || c == 0x20 || c == 0x85 || c == 0xA0 || c == 0x1680
    || 0x2000 <= c <= 0x200A || c == 0x2028 || c == 0x2029 || c == 0x202F || c == 0x205F || c == 0x3000
  }

  predicate IsHexDigit(c: char) {
    '0' <= c <= '9' || 'a' <= c <= 'f' || 'A' <= c <= 'F'
  }

  /** "sha256:" and 64 hexadecimal digits. */
  predicate IsSha256Digest(value: string) {
    |value| == 71 && value[..7] == "sha256:" && forall i :: 7 <= i < 71 ==> IsHexDigit(value[i])
  }

  datatype AttemptState = Accepted | Starting | Running | Stopping | Recovering
    | Succeeded | Failed | TimedOut | Cancelled | Lost | Orphaned

  predicate IsTerminal(state: AttemptState) {
    IsRunnerTerminal(state) || state == Lost || state == Orphaned
  }

  /** The states that a Runner's own result can lead to. */
  predicate IsRunnerTerminal(state: AttemptState) {
    state == Succeeded || state == Failed || state == TimedOut || state == Cancelled
  }

  datatype TerminationIntent = Natural | StopRequested | DeadlineExceeded
}
