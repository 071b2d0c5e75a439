/** Bounded capture of a target's output: the launcher's reader thread, the record
    it leaves in result.json, and the checks under which the Runtime later imports
    the file.
 */
module Capture {

  import opened Types
  type Digest = seq<char>

  datatype Result<+T> = Ok(value: T) | Err(error: string)

  const U64: nat := 0x1_0000_0000_0000_0000
  const BUFFER_BYTES: nat := 16 * 1024

  /** One `ReadFile` on the pipe: some bytes, the broken pipe that ends every normal
      capture, or another failure. A read of no bytes also ends the capture. */
  datatype Read = Data(bytes: Bytes) | BrokenPipe | Failed

  function Min(a: nat, b: nat): nat {
    if a < b then a else b
  }

  /** The bytes of the stream: everything read before the first end mark. */
  function Stream(chunks: seq<Read>): Bytes {
    if chunks == [] || !chunks[0].Data? || chunks[0].bytes == [] then []
    else chunks[0].bytes + Stream(chunks[1..])
  }

  /** The capture ends with an error rather than at the end of the stream. */
  predicate Fails(chunks: seq<Read>) {
    if chunks == [] then false
    else match chunks[0]
      case Failed => true
      case BrokenPipe => false
      case Data(bytes) => bytes != [] && Fails(chunks[1..])
  }

  class CaptureWorker {
    const limit: nat
    var retainedBytes: nat
    var droppedBytes: nat
    var output: Bytes
    var failed: bool

    constructor (limit: nat)
      requires limit < U64
      ensures this.limit == limit && retainedBytes == 0 && droppedBytes == 0
      ensures output == [] && !failed
    {
      this.limit := limit;
      retainedBytes, droppedBytes, output, failed := 0, 0, [], false;
    }

    /** Counters are 64-bit and unchecked, so the dropped count wraps around. */
    method Run(chunks: seq<Read>)
      requires limit < U64 && retainedBytes == 0 && droppedBytes == 0 && output == [] && !failed
      requires forall i :: 0 <= i < |chunks| && chunks[i].Data? ==> |chunks[i].bytes| <= BUFFER_BYTES
      modifies this
      ensures failed <==> Fails(chunks)
      ensures output == Stream(chunks)[..Min(limit, |Stream(chunks)|)]
      ensures retainedBytes == |output|
      ensures droppedBytes == (|Stream(chunks)| - |output|) % U64
    {
      ghost var seen: Bytes := [];
      var i := 0;
      while i < |chunks|
        invariant 0 <= i <= |chunks| && !failed
        invariant Stream(chunks) == seen + Stream(chunks[i..])
        invariant Fails(chunks) == Fails(chunks[i..])
        invariant IsCaptured(limit, seen, output, retainedBytes, droppedBytes)
      {
        match chunks[i] {
          case BrokenPipe => break;
          case Failed =>
            failed := true;
            break;
          case Data(bytes) =>
            if bytes == [] { break; }
            StreamStep(chunks, i, seen);
            Take(bytes, seen);
            seen := seen + bytes;
        }
        i := i + 1;
      }
      assert i == |chunks| ==> chunks[i..] == [];
      assert Stream(chunks) == seen;
    }

    /** One read: as much as the limit allows goes to the file, the rest is counted. */
    method Take(bytes: Bytes, ghost seen: Bytes)
      requires IsCaptured(limit, seen, output, retainedBytes, droppedBytes)
      modifies this`output, this`retainedBytes, this`droppedBytes
      ensures IsCaptured(limit, seen + bytes, output, retainedBytes, droppedBytes)
    {
      ghost var kept, dropped := output, droppedBytes;
      var remaining := if limit > retainedBytes then limit - retainedBytes else 0;
      var writeLength := Min(|bytes|, remaining);
      if writeLength > 0 {
        output := output + bytes[..writeLength];
        retainedBytes := retainedBytes + writeLength;
      }
      droppedBytes := (droppedBytes + (|bytes| - writeLength)) % U64;
      CapturedMore(limit, seen, kept, dropped, bytes, writeLength);
    }
  }

  /** The state of a capture that has seen these bytes. */
  predicate IsCaptured(limit: nat, seen: Bytes, output: Bytes, retained: nat, dropped: nat) {
    output == seen[..Min(limit, |seen|)] && retained == |output| && dropped == (|seen| - |output|) % U64
  }

  lemma CapturedMore(limit: nat, seen: Bytes, output: Bytes, dropped: nat, bytes: Bytes, more: nat)
    requires IsCaptured(limit, seen, output, |output|, dropped)
    requires more == Min(|bytes|, if limit > |output| then limit - |output| else 0)
    ensures IsCaptured(limit, seen + bytes, output + bytes[..more], |output| + more, (dropped + (|bytes| - more)) % U64)
  {
    KeepMore(limit, seen, bytes);
    WrapAdd(|seen| - |output|, |bytes| - more);
  }

  lemma WrapAdd(a: nat, b: nat)
    ensures (a % U64 + b) % U64 == (a + b) % U64
  {
    var q := a / U64;
    assert a == q * U64 + a % U64;
    var r := (a % U64 + b) / U64;
    assert a + b == (q + r) * U64 + (a % U64 + b) % U64;
  }

  lemma KeepMore(limit: nat, seen: Bytes, bytes: Bytes)
    ensures var kept := seen[..Min(limit, |seen|)];
            var more := Min(|bytes|, if limit > |kept| then limit - |kept| else 0);
            (seen + bytes)[..Min(limit, |seen + bytes|)] == kept + bytes[..more]
  {
  }

  lemma StreamStep(chunks: seq<Read>, i: nat, seen: Bytes)
    requires i < |chunks| && chunks[i].Data? && chunks[i].bytes != []
    ensures seen + Stream(chunks[i..]) == (seen + chunks[i].bytes) + Stream(chunks[i + 1..])
    ensures Fails(chunks[i..]) == Fails(chunks[i + 1..])
  {
    assert chunks[i..][1..] == chunks[i + 1..];
    assert Stream(chunks[i..]) == chunks[i].bytes + Stream(chunks[i + 1..]);
  }

  // ------------------------------------------------ the record and its import

  datatype CapturedOutput = CapturedOutput(
    artifactId: string, fileName: string, digest: Digest,
    retainedBytes: nat, droppedBytes: nat, truncated: bool)

  datatype Artifact = Artifact(artifactId: string, fileName: string, digest: Digest, byteLength: nat, truncated: bool)

  function FileName(stdout: bool): string {
    if stdout then "stdout.log" else "stderr.log"
  }

  function ArtifactId(attemptId: string, stdout: bool): string {
    attemptId + (if stdout then ".stdout" else ".stderr")
  }

  /** What the launcher records about a finished capture; `file` is what is on disk. */
  function CapturedOutputFromWorker(
    sha: Bytes -> Digest, attemptId: string, stdout: bool, file: Bytes, retained: nat,
      dropped: nat): Result<CapturedOutput>
  {
    if |file| != retained then Err("captured output length differs from retained count")
    else Ok(CapturedOutput(ArtifactId(attemptId, stdout), FileName(stdout), sha(file), retained, dropped, dropped != 0))
  }

  /** What a capture of this stream keeps. */
  function Retained(stream: Bytes, limit: nat): Bytes {
    stream[..Min(limit, |stream|)]
  }

  /** The record of an undisturbed capture of this stream. */
  function Recorded(
    sha: Bytes -> Digest, attemptId: string, stdout: bool, stream: Bytes, limit: nat): Result<CapturedOutput>
  {
    var kept := Retained(stream, limit);
    CapturedOutputFromWorker(sha, attemptId, stdout, kept, |kept|, (|stream| - |kept|) % U64)
  }

  /** The Runtime's check of that record against the file it finds. */
  function ValidateCapturedOutput(
    sha: Bytes -> Digest, attemptId: string, stdout: bool, output: CapturedOutput, file: Bytes): Result<Artifact>
  {
    if output.fileName != FileName(stdout) || output.artifactId != ArtifactId(attemptId, stdout) then
      Err("Runner output identity does not match Attempt")
    else if sha(file) != output.digest || |file| != output.retainedBytes then
      Err("Runner output digest or byte length changed")
    else Ok(Artifact(output.artifactId, output.fileName, sha(file), |file|, output.truncated))
  }

  ghost predicate Injective(sha: Bytes -> Digest) {
    forall a, b :: sha(a) == sha(b) ==> a == b
  }

  /** A capture of `stream` is always recorded, and the import accepts a file exactly
      when it is the captured one; the artifact then has the retained length. */
  lemma ImportAcceptsExactlyTheCapture(
    sha: Bytes -> Digest, attemptId: string, stdout: bool, stream: Bytes, limit: nat, found: Bytes)
    requires limit < U64 && Injective(sha)
    ensures var kept := Retained(stream, limit);
            var dropped := (|stream| - |kept|) % U64;
            var recorded := Recorded(sha, attemptId, stdout, stream, limit);
            && recorded.Ok?
            && var imported := ValidateCapturedOutput(sha, attemptId, stdout, recorded.value, found);
               && (imported.Ok? <==> found == kept)
               && (imported.Ok? ==> imported.value.byteLength == Min(limit, |stream|)
                                    && imported.value.truncated == (dropped != 0))
  {
  }

  /** The truncation flag tells the truth unless the dropped count wraps to zero. */
  lemma TruncatedIsTruthful(total: nat, limit: nat)
    requires limit < U64
    ensures var dropped := (total - Min(limit, total)) % U64;
            (dropped != 0) == (total > limit) <==> !(total > limit && (total - limit) % U64 == 0)
    ensures total < U64 ==> ((total - Min(limit, total)) % U64 != 0 <==> total > limit)
    ensures total < U64 ==> Min(limit, total) + (total - Min(limit, total)) % U64 == total
  {
    if total < U64 && total > limit {
      assert (total - limit) % U64 == total - limit;
    }
  }
}
