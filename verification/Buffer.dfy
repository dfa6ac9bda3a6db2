/** The growable byte buffer of a connection: a vector plus a read offset, compacted on append. */
module ByteBuffer {

  /** The two fields of a `Buffer`. */
  datatype Buf = Buf(storage: string, readOffset: nat)
  {
    predicate Valid() { readOffset <= |storage| }

    function Readable(): string
      requires Valid()
    {
      storage[readOffset..]
    }

    /** Whether appending shifts the unread bytes to the front first. */
    predicate Compacts()
    {
      readOffset > 0 && readOffset >= |storage| / 2
    }

    function Appended(data: string): (b: Buf)
      requires Valid()
      ensures b.Valid()
    {
      if data == "" then this
      else if Compacts() then Buf(storage[readOffset..] + data, 0)
      else Buf(storage + data, readOffset)
    }

    function Consumed(count: nat): (b: Buf)
      requires Valid() && count <= |Readable()|
      ensures b.Valid()
    {
      if readOffset + count == |storage| then Buf("", 0) else Buf(storage, readOffset + count)
    }
  }

  const EMPTY := Buf("", 0)

  lemma AppendedReadable(b: Buf, data: string)
    requires b.Valid()
    ensures b.Appended(data).Readable() == b.Readable() + data
  {
    if data == "" {
      assert b.Readable() + "" == b.Readable();
    } else if !b.Compacts() {
      assert (b.storage + data)[b.readOffset..] == b.storage[b.readOffset..] + data;
    }
  }

  lemma ConsumedReadable(b: Buf, count: nat)
    requires b.Valid() && count <= |b.Readable()|
    ensures b.Consumed(count).Readable() == b.Readable()[count..]
  {
  }

  /** The backing storage never needs more than twice the largest readable length. */
  lemma StorageBound(b: Buf, data: string, most: nat)
    requires b.Valid() && |b.storage| <= 2 * most
    requires |b.Readable()| + |data| <= most
    ensures |b.Appended(data).storage| <= 2 * most
  {
  }

  datatype Op = Append(data: string) | Consume(count: nat)

  /** The buffer after a run of operations, with what was appended and consumed so far and how many
      bytes compaction has shifted. */
  datatype Trace = Trace(buffer: Buf, appended: string, consumed: nat, shifted: nat)

  function Apply(t: Trace, op: Op): (u: Trace)
    requires t.buffer.Valid()
    requires op.Consume? ==> op.count <= |t.buffer.Readable()|
    ensures u.buffer.Valid()
  {
    match op
    case Append(data) =>
      Trace(t.buffer.Appended(data), t.appended + data, t.consumed,
            t.shifted + if data != "" && t.buffer.Compacts() then |t.buffer.Readable()| else 0)
    case Consume(count) => Trace(t.buffer.Consumed(count), t.appended, t.consumed + count, t.shifted)
  }

  /** Callers never consume more than is readable. */
  predicate Legal(t: Trace, ops: seq<Op>)
    requires t.buffer.Valid()
    decreases |ops|
  {
    ops == [] ||
    ((ops[0].Consume? ==> ops[0].count <= |t.buffer.Readable()|) && Legal(Apply(t, ops[0]), ops[1..]))
  }

  function Run(t: Trace, ops: seq<Op>): Trace
    requires t.buffer.Valid() && Legal(t, ops)
    decreases |ops|
  {
    if ops == [] then t else Run(Apply(t, ops[0]), ops[1..])
  }

  /** The buffer is a byte queue, and the bytes shifted so far are paid for by the bytes consumed:
      two for each, with the unspent ones still lying before the read offset. */
  predicate IsQueue(t: Trace)
  {
    && t.buffer.Valid()
    && t.consumed <= |t.appended|
    && t.buffer.Readable() == t.appended[t.consumed..]
    && t.shifted + 2 * t.buffer.readOffset <= 2 * t.consumed
  }

  lemma ApplyKeepsQueue(t: Trace, op: Op)
    requires IsQueue(t)
    requires op.Consume? ==> op.count <= |t.buffer.Readable()|
    ensures IsQueue(Apply(t, op))
  {
    match op
    case Append(data) =>
      AppendedReadable(t.buffer, data);
      assert (t.appended + data)[t.consumed..] == t.appended[t.consumed..] + data;
    case Consume(count) =>
      ConsumedReadable(t.buffer, count);
  }

  /** Over any run: the readable view is the appended bytes minus the consumed prefix, and compaction
      has shifted at most twice the bytes consumed. */
  lemma {:induction false} BufferRefinesQueue(t: Trace, ops: seq<Op>)
    requires IsQueue(t) && Legal(t, ops)
    ensures IsQueue(Run(t, ops))
    ensures Run(t, ops).shifted <= 2 * Run(t, ops).consumed
    decreases |ops|
  {
    if ops != [] {
      ApplyKeepsQueue(t, ops[0]);
      BufferRefinesQueue(Apply(t, ops[0]), ops[1..]);
    }
  }

  class Buffer {
    var storage: string
    var readOffset: nat

    ghost function View(): Buf
      reads this
    {
      Buf(storage, readOffset)
    }

    constructor ()
      ensures View() == EMPTY
    {
      storage, readOffset := "", 0;
    }

    method ReadableBytes() returns (n: nat)
      requires View().Valid()
      ensures n == |View().Readable()|
    {
      n := |storage| - readOffset;
    }

    method Consume(count: nat)
      requires View().Valid() && count <= |View().Readable()|
      modifies this
      ensures View() == old(View()).Consumed(count) && View().Valid()
    {
      readOffset := readOffset + count;
      if readOffset == |storage| {
        storage, readOffset := "", 0;
      }
    }

    method Append(data: string)
      requires View().Valid()
      modifies this
      ensures View() == old(View()).Appended(data) && View().Valid()
    {
      if data == "" { return; }
      if readOffset > 0 && readOffset >= |storage| / 2 {
        storage := storage[readOffset..];
        readOffset := 0;
      }
      storage := storage + data;
    }
  }
}
