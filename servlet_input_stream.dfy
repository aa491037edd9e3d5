/**
 * The request body as a servlet input stream over a fixed byte array: a cursor
 * (`lastIndexRetrieved`, starting at -1), the optional read listener and the callbacks it has
 * received. Both the stream as written and a corrected `read` are modelled.
 */
module InputStreams {
  import opened Wrappers

  /** A Java `byte`. */
  type JByte = b: int | -128 <= b < 128

  /** The value `InputStream.read` is meant to return for a byte: 0 to 255. */
  function Unsigned8(b: JByte): (r: int)
    ensures 0 <= r < 256
    ensures r % 256 == b % 256
  {
    if b < 0 then b + 256 else b
  }

  function UnsignedBytes(data: seq<JByte>): (r: seq<int>)
    ensures |r| == |data| && forall i :: 0 <= i < |data| ==> r[i] == Unsigned8(data[i])
  {
    if data == [] then [] else [Unsigned8(data[0])] + UnsignedBytes(data[1..])
  }

  /** The callbacks the stream makes on its read listener. */
  datatype Notice = DataAvailable | AllDataRead

  type ListenerId = nat

  /** What a `read` as written produces: a value, or an `ArrayIndexOutOfBoundsException`. */
  datatype ReadOutcome = Value(v: int) | OutOfBounds

  /**
   * `read` as written, on the cursor `last`: the guard `last < data.length` lets the cursor step
   * to `data.length`, where indexing the array throws; the byte is returned sign-extended.
   */
  function ReadAsWrittenStep(data: seq<JByte>, last: int): (ReadOutcome, int)
    requires -1 <= last
  {
    if last < |data| then
      (if last + 1 < |data| then Value(data[last + 1]) else OutOfBounds, last + 1)
    else (Value(-1), last)
  }

  /** A `read` honouring `InputStream.read`: the next byte as 0 to 255, or -1 at the end. */
  function ReadStep(data: seq<JByte>, last: int): (r: (int, int))
    requires -1 <= last
    ensures r.0 == -1 || 0 <= r.0 < 256
    ensures r.0 == -1 <==> last >= |data| - 1
    ensures r.0 != -1 ==> r.1 == last + 1 && r.0 == Unsigned8(data[last + 1])
    ensures r.0 == -1 ==> r.1 == last
  {
    if last < |data| - 1 then (Unsigned8(data[last + 1]), last + 1) else (-1, last)
  }

  /** The results of `n` successive corrected reads from cursor `last`. */
  function Reads(data: seq<JByte>, last: int, n: nat): seq<int>
    requires -1 <= last
    decreases n
  {
    if n == 0 then [] else [ReadStep(data, last).0] + Reads(data, ReadStep(data, last).1, n - 1)
  }

  class ServletInputStream {
    const data: seq<JByte>
    var lastIndexRetrieved: int
    var listener: Option<ListenerId>
    /** The callbacks made so far, in order. */
    var notices: seq<Notice>

    /** The cursor never passes the last byte (the corrected stream keeps this). */
    ghost predicate Valid()
      reads this
    {
      -1 <= lastIndexRetrieved <= |data| - 1
    }

    constructor (data: seq<JByte>)
      ensures Valid() && this.data == data && lastIndexRetrieved == -1 && listener == None && notices == []
    {
      this.data := data;
      lastIndexRetrieved := -1;
      listener := None;
      notices := [];
    }

    function IsFinished(): bool
      reads this
    {
      lastIndexRetrieved == |data| - 1
    }

    function Available(): (r: int)
      reads this
      ensures Valid() ==> r >= 0 && (r == 0 <==> IsFinished())
      ensures Valid() ==> r == |data[lastIndexRetrieved + 1..]|
    {
      |data| - lastIndexRetrieved - 1
    }

    /** The bytes read so far. */
    ghost function Consumed(): seq<JByte>
      reads this
      requires Valid()
    {
      data[..lastIndexRetrieved + 1]
    }

    /**
     * Stores the listener and tells it at once whether data remains or all of it was read; a
     * null listener is stored and then dereferenced (`npe`).
     */
    method SetReadListener(l: Option<ListenerId>) returns (npe: bool)
      modifies this
      ensures listener == l && lastIndexRetrieved == old(lastIndexRetrieved)
      ensures npe <==> l.None?
      ensures l.Some? ==> notices == old(notices) + [if IsFinished() then AllDataRead else DataAvailable]
      ensures l.None? ==> notices == old(notices)
    {
      listener := l;
      if l.None? {
        return true;
      }
      npe := false;
      if !IsFinished() {
        notices := notices + [DataAvailable];
      } else {
        notices := notices + [AllDataRead];
      }
    }

    /**
     * `read` as written. The guard lets the cursor move one past the last byte, so the read
     * after the last byte throws instead of returning -1; bytes come back sign-extended.
     */
    method ReadAsWritten() returns (outcome: ReadOutcome)
      requires -1 <= lastIndexRetrieved
      modifies this
      ensures (outcome, lastIndexRetrieved) == ReadAsWrittenStep(data, old(lastIndexRetrieved))
      ensures listener == old(listener)
      ensures notices == old(notices) +
        (if outcome.Value? && old(lastIndexRetrieved) < |data| && listener.Some? && IsFinished() then [AllDataRead] else [])
    {
      if lastIndexRetrieved < |data| {
        lastIndexRetrieved := lastIndexRetrieved + 1;
        if lastIndexRetrieved >= |data| {
          return OutOfBounds;
        }
        var n := data[lastIndexRetrieved];
        if listener.Some? && IsFinished() {
          notices := notices + [AllDataRead];
        }
        return Value(n);
      }
      outcome := Value(-1);
    }

    /** The corrected `read`: the next byte as 0 to 255, or -1 once every byte has been read. */
    method Read() returns (r: int)
      requires Valid()
      modifies this
      ensures Valid()
      ensures (r, lastIndexRetrieved) == ReadStep(data, old(lastIndexRetrieved))
      ensures r != -1 ==> Consumed() == old(Consumed()) + [data[old(lastIndexRetrieved) + 1]]
      ensures listener == old(listener)
      ensures notices == old(notices) + (if r != -1 && listener.Some? && IsFinished() then [AllDataRead] else [])
    {
      if lastIndexRetrieved < |data| - 1 {
        lastIndexRetrieved := lastIndexRetrieved + 1;
        var b := data[lastIndexRetrieved];
        if listener.Some? && IsFinished() {
          notices := notices + [AllDataRead];
        }
        assert data[..lastIndexRetrieved + 1] == data[..lastIndexRetrieved] + [b];
        return Unsigned8(b);
      }
      r := -1;
    }

    /** Closing skips to the end: nothing remains to read. */
    method Close()
      modifies this
      ensures lastIndexRetrieved == |data| - 1 && IsFinished() && Available() == 0
      ensures listener == old(listener) && notices == old(notices)
    {
      lastIndexRetrieved := |data| - 1;
    }
  }

  /** From cursor `last`, the corrected reads return the remaining bytes as 0 to 255, in order. */
  lemma {:induction false} ReadsRemaining(data: seq<JByte>, last: int)
    requires -1 <= last <= |data| - 1
    ensures Reads(data, last, |data| - 1 - last) == UnsignedBytes(data[last + 1..])
    decreases |data| - last
  {
    if last < |data| - 1 {
      ReadsRemaining(data, last + 1);
      assert data[last + 1..] == [data[last + 1]] + data[last + 2..];
    }
  }

  /** Once every byte has been read, each further corrected read returns -1. */
  lemma {:induction false} ReadsAtEnd(data: seq<JByte>, n: nat)
    ensures Reads(data, |data| - 1, n) == seq(n, _ => -1)
  {
    if n > 0 {
      ReadsAtEnd(data, n - 1);
    }
  }

  /** A fresh stream yields the whole body and then end-of-stream. */
  lemma WholeBodyThenEnd(data: seq<JByte>)
    ensures Reads(data, -1, |data| + 1) == UnsignedBytes(data) + [-1]
  {
    ReadsRemaining(data, -1);
    ReadsSplit(data, -1, |data|, 1);
    ReadsAtEnd(data, 1);
    assert data[0..] == data;
  }

  lemma {:induction false} ReadsSplit(data: seq<JByte>, last: int, m: nat, n: nat)
    requires -1 <= last && last + m <= |data| - 1
    ensures Reads(data, last, m + n) == Reads(data, last, m) + Reads(data, last + m, n)
    decreases m
  {
    if m > 0 {
      ReadsSplit(data, last + 1, m - 1, n);
    }
  }

  /** As written, the read after the last byte throws instead of returning -1. */
  lemma ReadPastEndThrows(data: seq<JByte>)
    ensures ReadAsWrittenStep(data, |data| - 1).0 == OutOfBounds
    ensures ReadAsWrittenStep(data, |data| - 1).1 == |data|
  {
  }

  /** As written, a body byte 0xFF reads as -1, the end-of-stream value. */
  lemma ByteFFReadsAsEnd()
    ensures ReadAsWrittenStep([-1], -1).0 == Value(-1)
    ensures ReadStep([-1], -1).0 == 255
  {
  }
}
