/**
 The buffered append file of a scratch run: small records gather in memory and
 reach the file in batches, yet callers see one flat log of bytes.
 */
module ScratchLog {
  import opened Wrappers
  import opened KeyBits

  const APPEND_BUFFER_BYTES: nat := 1024 * 1024

  class AppendLog {
    var file: Bytes
    var committed: nat
    var pending: Bytes
    /** How many file operations have failed. */
    ghost var faults: nat

    constructor ()
      ensures Valid() && Contents() == [] && faults == 0
    {
      file, committed, pending, faults := [], 0, [], 0;
    }

    /** The buffer is bounded, and the commit mark is the end of the file. */
    predicate Valid()
      reads this
    {
      committed == |file| && |pending| <= APPEND_BUFFER_BYTES
    }

    /** The flat log the buffer stands for. */
    function Contents(): Bytes
      reads this
    {
      file + pending
    }

    /** Writes at the end of the file; a failed write may have written a part. */
    method WriteAll(bytes: Bytes) returns (ok: bool)
      modifies this`file, this`faults
      ensures exists k: nat :: k <= |bytes| && file == old(file) + bytes[..k] && (ok ==> k == |bytes|)
      ensures faults == old(faults) + if ok then 0 else 1
    {
      var k :| 0 <= k <= |bytes|;
      ok := *;
      ok := ok && k == |bytes|;
      file := file + bytes[..k];
      if !ok {
        faults := faults + 1;
      }
    }

    /**
     Writes the buffer at the end of the file. A failed write may leave a part of the buffer
     in the file and all of it in memory; the next flush then writes all of it after that part.
     */
    method Flush() returns (ok: bool)
      requires |pending| <= APPEND_BUFFER_BYTES
      modifies this
      ensures ok ==> Contents() == old(Contents()) && pending == [] && (old(pending) != [] || old(Valid()) ==> Valid())
      ensures !ok ==> pending == old(pending) && exists k: nat :: k <= |pending| && file == old(file) + pending[..k]
      ensures faults == old(faults) + if ok then 0 else 1
    {
      if pending == [] {
        return true;
      }
      committed := |file|;
      ok := WriteAll(pending);
      if !ok {
        return;
      }
      committed, pending := committed + |pending|, [];
    }

    /**
     Appends a record; its offset is where the flat log ended, whatever was buffered. While the
     buffer has room for it nothing is written and so nothing can fail.
     */
    method Append(bytes: Bytes) returns (ok: bool, offset: nat)
      requires Valid()
      modifies this
      ensures !ok ==> exists k: nat :: k <= |old(pending) + bytes| && file == old(file) + (old(pending) + bytes)[..k]
      ensures ok ==> Valid() && offset == |old(Contents())| && Contents() == old(Contents()) + bytes
      ensures |old(pending)| + |bytes| <= APPEND_BUFFER_BYTES ==> ok && file == old(file)
      ensures faults == old(faults) + if ok then 0 else 1
    {
      offset := committed + |pending|;
      if pending != [] && |pending| + |bytes| > APPEND_BUFFER_BYTES {
        ghost var flushed := file;
        ok := Flush();
        if !ok {
          ghost var k: nat :| k <= |pending| && file == flushed + pending[..k];
          PartOfFirst(pending, bytes, k);
          return;
        }
      }
      if |bytes| > APPEND_BUFFER_BYTES {
        committed := |file|;
        ghost var before := file;
        ok := WriteAll(bytes);
        if !ok {
          ghost var k: nat :| k <= |bytes| && file == before + bytes[..k];
          PartOfSecond(old(file), old(pending), bytes, k);
          return;
        }
        committed := committed + |bytes|;
      } else {
        pending := pending + bytes;
      }
      ok := true;
    }

    /**
     Reads go to the file, so they flush first; what they see is the flat log. If nothing
     fails they answer, and after a failure the log is as a failed flush leaves it, or unchanged.
     */
    method ReadExact(offset: nat, length: nat) returns (ok: bool, bytes: Option<Bytes>)
      requires Valid()
      modifies this
      ensures ok ==> Valid() && Contents() == old(Contents()) && bytes == Slice(Contents(), offset, length)
      ensures !ok && !(Valid() && Contents() == old(Contents())) ==>
        pending == old(pending) && exists k: nat :: k <= |pending| && file == old(file) + pending[..k]
      ensures faults == old(faults) + if ok then 0 else 1
    {
      ok := Flush();
      if !ok {
        return false, None;
      }
      committed := |file|;
      ok := *;
      if !ok {
        faults := faults + 1;
        return false, None;
      }
      assert file == Contents();
      bytes := Slice(file, offset, length);
    }
  }

  lemma PartOfFirst(a: Bytes, b: Bytes, k: nat)
    requires k <= |a|
    ensures (a + b)[..k] == a[..k]
  {
  }

  lemma PartOfSecond(file: Bytes, a: Bytes, b: Bytes, k: nat)
    requires k <= |b|
    ensures (file + a) + b[..k] == file + (a + b)[..|a| + k] && |a| + k <= |a + b|
  {
    assert (a + b)[..|a| + k] == a + b[..k];
  }

  /** The bytes at an offset, if the log reaches that far. */
  function Slice(log: Bytes, offset: nat, length: nat): Option<Bytes> {
    if offset + length <= |log| then Some(log[offset..offset + length]) else None
  }

  /**
   A flush that failed after `k` bytes and was then repeated leaves the flat log as it was
   if and only if no byte of the failed one arrived: every buffered record is `k` bytes
   behind the offset that was handed out for it.
   */
  lemma RetriedFlush(file: Bytes, pending: Bytes, k: nat, at: nat, length: nat)
    requires k <= |pending| && at + length <= |pending|
    ensures var after := file + pending[..k] + pending;
      && (after == file + pending <==> k == 0)
      && Slice(file + pending, |file| + at, length) == Some(pending[at..at + length])
      && Slice(after, |file| + k + at, length) == Some(pending[at..at + length])
  {
    var after := file + pending[..k] + pending;
    assert |after| == |file| + k + |pending|;
    assert (file + pending)[|file| + at..|file| + at + length] == pending[at..at + length];
    assert after[|file| + k + at..|file| + k + at + length] == pending[at..at + length];
  }

  /** Two buffered records, the first byte written twice: the offset of the second now reads the first. */
  lemma RecordLost()
    ensures Slice([7, 8], 1, 1) == Some([8]) && Slice([7] + [7, 8], 1, 1) == Some([7])
  {
    assert [7, 8][1..2] == [8] && ([7] + [7, 8])[1..2] == [7];
  }

  /** What a read found, it finds in every longer log. */
  lemma SliceStable(log: Bytes, longer: Bytes, offset: nat, length: nat)
    requires log <= longer && Slice(log, offset, length).Some?
    ensures Slice(longer, offset, length) == Slice(log, offset, length)
  {
    assert longer[..|log|] == log;
    assert longer[offset..offset + length] == longer[..|log|][offset..offset + length];
  }
}
