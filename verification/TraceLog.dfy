/** The rotating JSON-lines trace: one current segment and one previous segment,
    changed under a process-wide lock, with every file operation able to fail.
 */
module TraceLog {

  import opened Types

  const NEWLINE: Byte := 0x0A

  datatype File = Absent | Present(bytes: Bytes)

  /** Which of the operations of one append fails, if any. */
  datatype Fault = NoFault | RemoveFails | RenameFails | OpenFails | WriteFails(written: nat)

  function Contents(file: File): Bytes {
    match file
    case Absent => []
    case Present(bytes) => bytes
  }

  function Flatten(records: seq<Bytes>): Bytes {
    if records == [] then [] else records[0] + Flatten(records[1..])
  }

  lemma FlattenAppend(records: seq<Bytes>, record: Bytes)
    ensures Flatten(records + [record]) == Flatten(records) + record
  {
    if records == [] {
      assert Flatten([record]) == record + [];
    } else {
      FlattenAppend(records[1..], record);
      assert (records + [record])[1..] == records[1..] + [record];
    }
  }

  /** A serialised record: one line, its newline last and only there. */
  predicate IsRecord(record: Bytes) {
    && record != [] && record[|record| - 1] == NEWLINE
    && NEWLINE !in record[..|record| - 1]
  }

  predicate AllRecords(records: seq<Bytes>) {
    forall i :: 0 <= i < |records| ==> IsRecord(records[i])
  }

  /** A segment keeps within the limit or holds one oversized record. */
  predicate WithinLimit(records: seq<Bytes>, limit: nat) {
    |Flatten(records)| <= limit || |records| == 1
  }

  lemma DropFront(all: seq<Bytes>, from: nat, front: seq<Bytes>, back: seq<Bytes>)
    requires from <= |all| && all[from..] == front + back
    ensures from + |front| <= |all| && all[from + |front|..] == back
  {
    assert |all| - from == |front| + |back|;
    assert all[from..][|front|..] == all[from + |front|..];
  }

  class TraceLog {
    const limit: nat
    var current: File
    var rotated: File
    /** Every record whose append reported success, oldest first. */
    ghost var history: seq<Bytes>
    ghost var currentRecords: seq<Bytes>
    ghost var rotatedRecords: seq<Bytes>
    ghost var forgotten: nat

    ghost predicate Valid()
      reads this
    {
      && Contents(current) == Flatten(currentRecords)
      && Contents(rotated) == Flatten(rotatedRecords)
      && forgotten <= |history|
      && history[forgotten..] == rotatedRecords + currentRecords
      && (history != [] ==> forgotten < |history|)
      && WithinLimit(currentRecords, limit) && WithinLimit(rotatedRecords, limit)
      && AllRecords(currentRecords) && AllRecords(rotatedRecords)
    }

    constructor (limit: nat)
      ensures Valid() && this.limit == limit && history == []
    {
      this.limit := limit;
      current, rotated := Absent, Absent;
      history, currentRecords, rotatedRecords, forgotten := [], [], [], 0;
    }

    /** Moves the current segment over the previous one. */
    method Rotate(fault: Fault) returns (ok: bool)
      requires Valid() && current.Present? && current.bytes != []
      modifies this
      ensures Valid() && history == old(history)
      ensures ok <==> !(fault.RenameFails? || (fault.RemoveFails? && old(rotated).Present?))
      ensures ok ==> rotated == old(current) && current == Absent && currentRecords == []
      ensures !ok ==> current == old(current)
    {
      if rotated.Present? {
        if fault.RemoveFails? {
          return false;
        }
        rotated := Absent;
        forgotten := forgotten + |rotatedRecords|;
        DropFront(history, forgotten - |rotatedRecords|, rotatedRecords, currentRecords);
        rotatedRecords := [];
      } else {
        FlattenLength(rotatedRecords);
      }
      if fault.RenameFails? {
        return false;
      }
      rotated, current := current, Absent;
      rotatedRecords, currentRecords := currentRecords, [];
      assert rotatedRecords + currentRecords == history[forgotten..];
      return true;
    }

    /** The segments on disk always hold the newest records, whole and in order; only a write cut short inside
        a record leaves that state, with the beginning of the record behind them. A record that fits never
        rotates. */
    method Append(record: Bytes, fault: Fault) returns (ok: bool)
      requires Valid() && IsRecord(record)
      modifies this
      ensures ok <==> limit > 0 && Survives(old(current), old(rotated), limit, record, fault)
      ensures history == if ok then old(history) + [record] else old(history)
      ensures !(limit > 0 && fault.WriteFails? && 0 < fault.written < |record|) ==> Valid()
      ensures ok ==>
                if Rotates(old(current), limit, record) then
                  rotated == old(current) && current == Present(record)
                else
                  rotated == old(rotated) && current == Present(Contents(old(current)) + record)
      ensures ok && |Contents(old(current)) + record| <= limit ==>
                rotated == old(rotated) && current == Present(Contents(old(current)) + record)
      ensures limit > 0 && fault.WriteFails? && fault.written < |record| ==>
                if Rotates(old(current), limit, record) then
                  rotated == old(current) && current == Present(record[..fault.written])
                else
                  rotated == old(rotated) && current == Present(Contents(old(current)) + record[..fault.written])
    {
      if limit == 0 {
        return false;
      }
      if Rotates(current, limit, record) {
        ok := Rotate(fault);
        if !ok {
          return;
        }
      }
      if fault.OpenFails? {
        return false;
      }
      if fault.WriteFails? && fault.written < |record| {
        current := Present(Contents(current) + record[..fault.written]);
        return false;
      }
      Write(record);
      return true;
    }

    /** The successful write: the record is the newest of the current segment. */
    method Write(record: Bytes)
      requires Valid() && IsRecord(record) && !Rotates(current, limit, record)
      modifies this
      ensures Valid() && history == old(history) + [record]
      ensures current == Present(Contents(old(current)) + record) && rotated == old(rotated)
    {
      FlattenAppend(currentRecords, record);
      FlattenLength(currentRecords);
      current := Present(Contents(current) + record);
      currentRecords := currentRecords + [record];
      history := history + [record];
      assert rotatedRecords + currentRecords == history[forgotten..];
    }
  }

  /** Records are never empty, so an empty segment holds none. */
  lemma FlattenLength(records: seq<Bytes>)
    requires AllRecords(records)
    ensures |Flatten(records)| >= |records|
  {
    if records != [] {
      FlattenLength(records[1..]);
    }
  }

  /** The rotation test of one append. */
  predicate Rotates(current: File, limit: nat, record: Bytes) {
    current.Present? && |current.bytes| > 0 && |current.bytes| + |record| > limit
  }

  ghost predicate Survives(current: File, rotated: File, limit: nat, record: Bytes, fault: Fault) {
    match fault
    case NoFault => true
    case RemoveFails => !(Rotates(current, limit, record) && rotated.Present?)
    case RenameFails => !Rotates(current, limit, record)
    case OpenFails => false
    case WriteFails(written) => written >= |record|
  }

  // ------------------------------------------------------------ reading it back

  /** Cuts a segment behind every newline. */
  function Lines(bytes: Bytes): seq<Bytes> {
    if bytes == [] then []
    else
      var cut := Position(bytes);
      [bytes[..cut]] + Lines(bytes[cut..])
  }

  /** The length of the first line. */
  function Position(bytes: Bytes): (n: nat)
    requires bytes != []
    ensures 0 < n <= |bytes|
    ensures NEWLINE !in bytes[..n - 1] && (n < |bytes| ==> bytes[n - 1] == NEWLINE)
  {
    if bytes[0] == NEWLINE || |bytes| == 1 then 1 else
      var n := Position(bytes[1..]);
      assert bytes[..n] == [bytes[0]] + bytes[1..][..n - 1];
      n + 1
  }

  lemma {:induction false} PositionOfRecord(record: Bytes, rest: Bytes)
    requires IsRecord(record)
    ensures Position(record + rest) == |record|
  {
    if |record| > 1 {
      var tail := record[1..];
      assert tail[..|tail| - 1] == record[..|record| - 1][1..];
      assert record[..|record| - 1][0] == record[0];
      PositionOfRecord(tail, rest);
      assert (record + rest)[1..] == tail + rest;
    }
  }

  /** A reader that splits a segment into lines finds exactly the records in it. */
  lemma {:induction false} LinesOfRecords(records: seq<Bytes>)
    requires AllRecords(records)
    ensures Lines(Flatten(records)) == records
  {
    if records != [] {
      PositionOfRecord(records[0], Flatten(records[1..]));
      assert Flatten(records)[..|records[0]|] == records[0];
      assert Flatten(records)[|records[0]|..] == Flatten(records[1..]);
      LinesOfRecords(records[1..]);
    }
  }
}
