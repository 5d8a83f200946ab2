/** The queue between threads that write and the one that sends: QBase/AsyncBuffer.cc. Each call is one step. */
module AsyncBuffer {
  import opened Bytes
  import opened Buffer
  import opened UnboundedBuffer

  /** The most pieces a BufferSequence can hold. */
  const MAX_IOVEC := 16

  class AsyncBuffer {
    const buffer: CircularBuffer
    const tmpBuf: UnboundedBuffer
    const backBuf: UnboundedBuffer
    var backBytes: nat
    /** Everything written so far, and everything skipped so far. */
    ghost var written: seq<byte>
    ghost var skipped: seq<byte>

    ghost predicate Shaped()
      reads this, buffer, tmpBuf, backBuf
    {
      && tmpBuf != backBuf && buffer.Valid() && tmpBuf.Valid() && backBuf.Valid()
      && backBytes == backBuf.ReadableSize()
    }

    /** What waits to be sent, in order. */
    ghost function Queue(): seq<byte>
      requires Shaped()
      reads this, buffer, buffer.buffer, tmpBuf, backBuf
    {
      tmpBuf.Contents() + buffer.Contents() + backBuf.Contents()
    }

    /** What the consumer is shown, and may skip from: the swapped-out buffer first, then the ring. */
    ghost function Front(): seq<byte>
      requires Shaped()
      reads this, buffer, buffer.buffer, tmpBuf, backBuf
    {
      if tmpBuf.Contents() != [] then tmpBuf.Contents() else buffer.Contents()
    }

    /** First in, first out: what has been skipped and what waits are together all that was written. */
    ghost predicate Valid()
      reads this, buffer, buffer.buffer, tmpBuf, backBuf
    {
      Shaped() && skipped + Queue() == written
    }

    constructor (size: nat)
      requires 0 < size <= 0x4000_0000
      ensures Valid() && written == [] && fresh(buffer) && fresh(buffer.buffer) && fresh(tmpBuf) && fresh(backBuf)
    {
      buffer := new CircularBuffer(size);
      tmpBuf := new UnboundedBuffer();
      backBuf := new UnboundedBuffer();
      backBytes, written, skipped := 0, [], [];
    }

    /** Write: into the ring while nothing waits behind it and all of the data fits, else behind everything. */
    method Write(data: seq<seq<byte>>)
      requires Valid() && |data| <= MAX_IOVEC && backBuf.ReadableSize() + |Flatten(data)| <= MAX_BUFFER_SIZE
      modifies this, buffer`writePos, buffer.buffer, backBuf
      ensures Valid() && written == old(written) + Flatten(data) && skipped == old(skipped)
      ensures old(Front()) <= Front()
    {
      hide Flatten, Ring;
      var len := TotalBytes(data);
      if backBytes > 0 || buffer.WritableSize() < len {
        PushBack(data, len);
      } else {
        PushRing(data);
      }
      AppendAssociates(skipped, old(Queue()), Flatten(data));
      written := written + Flatten(data);
    }

    method PushBack(data: seq<seq<byte>>, len: nat)
      requires Shaped() && len == |Flatten(data)| && backBuf.ReadableSize() + len <= MAX_BUFFER_SIZE
      modifies this`backBytes, backBuf
      ensures Shaped() && Queue() == old(Queue()) + Flatten(data) && Front() == old(Front())
    {
      hide Flatten;
      var i := 0;
      FlattenNone(data);
      while i < |data|
        invariant i <= |data| && backBuf.Valid() && |Flatten(data[..i])| <= |Flatten(data)|
        invariant backBuf.Contents() == old(backBuf.Contents()) + Flatten(data[..i])
        invariant backBytes == old(backBytes) && buffer.Contents() == old(buffer.Contents())
        invariant tmpBuf.Contents() == old(tmpBuf.Contents())
      {
        FlattenMore(data, i);
        var n := backBuf.PushData(data[i]);
        i := i + 1;
      }
      assert data[..|data|] == data;
      backBytes := backBytes + len;
      AppendAssociates(tmpBuf.Contents() + buffer.Contents(), old(backBuf.Contents()), Flatten(data));
    }

    method PushRing(data: seq<seq<byte>>)
      requires Shaped() && backBytes == 0 && |Flatten(data)| <= buffer.WritableSize()
      modifies buffer`writePos, buffer.buffer
      ensures Shaped() && Queue() == old(Queue()) + Flatten(data) && old(Front()) <= Front()
    {
      hide Flatten, Ring, IsPower2, Wrap;
      ghost var b := buffer.Contents();
      PushAll(data);
      AppendAssociates(tmpBuf.Contents(), b, Flatten(data));
      NothingBehind(tmpBuf.Contents(), b, backBuf.Contents(), Flatten(data));
    }

    method PushAll(data: seq<seq<byte>>)
      requires buffer.Valid() && |Flatten(data)| <= buffer.WritableSize()
      modifies buffer`writePos, buffer.buffer
      ensures buffer.Valid() && buffer.Contents() == old(buffer.Contents()) + Flatten(data)
    {
      hide Flatten, Ring, IsPower2, Wrap;
      var i := 0;
      FlattenNone(data);
      while i < |data|
        invariant i <= |data| && buffer.Valid() && |Flatten(data[..i])| <= |Flatten(data)|
        invariant buffer.Contents() == old(buffer.Contents()) + Flatten(data[..i])
      {
        FlattenMore(data, i);
        AppendAssociates(old(buffer.Contents()), Flatten(data[..i]), data[i]);
        var ok := buffer.PushData(data[i]);
        i := i + 1;
      }
      assert data[..|data|] == data;
    }

    /** ProcessBuffer: shows what comes first, in at most two pieces. When nothing else is left it swaps the back buffer
        out, provided the lock is free. */
    method ProcessBuffer(tryLock: bool) returns (data: seq<seq<byte>>)
      requires Valid()
      modifies this`backBytes, tmpBuf, backBuf
      ensures Valid() && written == old(written) && skipped == old(skipped) && Queue() == old(Queue())
      ensures |data| <= 2 && Flatten(data) == Front()
      ensures tryLock && Queue() != [] ==> Front() != []
    {
      hide Flatten, Ring;
      if tmpBuf.ReadableSize() != 0 {
        data := ShowTmp();
      } else if !buffer.IsEmpty() {
        var n := buffer.ReadableSize();
        data := buffer.GetDatum(n, 0);
      } else {
        data := NoPieces();
        if backBytes > 0 && tryLock {
          backBytes := 0;
          tmpBuf.Swap(backBuf);
          data := ShowTmp();
        }
      }
    }

    method ShowTmp() returns (data: seq<seq<byte>>)
      requires tmpBuf.Valid()
      ensures |data| == 1 && Flatten(data) == tmpBuf.Contents()
    {
      var bytes := tmpBuf.PeekDataAt(tmpBuf.ReadableSize(), 0);
      FlattenOne(bytes);
      data := [bytes];
    }

    /** Skip: the consumer is done with the first bytes of what it was shown. */
    method Skip(size: nat)
      requires Valid() && size <= |Front()|
      modifies this`skipped, buffer`readPos, tmpBuf`readPos
      ensures Valid() && written == old(written) && skipped == old(skipped + Front()[..size])
      ensures Queue() == old(Queue())[size..]
    {
      hide Ring, IsPower2, Wrap;
      ghost var t, b, k, front := tmpBuf.Contents(), buffer.Contents(), backBuf.Contents(), Front();
      if tmpBuf.ReadableSize() != 0 {
        assert size <= tmpBuf.ReadableSize();
        tmpBuf.AdjustReadPtr(size);
        DropFront(t, b, k, size);
      } else {
        assert buffer.ReadableSize() >= size;
        buffer.AdjustReadPtr(size);
        DropSecond(b, k, size);
      }
      MoveOver(skipped, t + b + k, size);
      skipped := skipped + front[..size];
    }
  }

  lemma NothingBehind(t: seq<byte>, b: seq<byte>, k: seq<byte>, d: seq<byte>)
    ensures k == [] ==> t + (b + d) + k == t + b + k + d
  {
  }

  lemma DropFront(a: seq<byte>, b: seq<byte>, c: seq<byte>, n: nat)
    requires n <= |a|
    ensures (a + b + c)[n..] == a[n..] + b + c && (a + b + c)[..n] == a[..n]
  {
  }

  lemma DropSecond(b: seq<byte>, c: seq<byte>, n: nat)
    requires n <= |b|
    ensures ([] + b + c)[n..] == [] + b[n..] + c && ([] + b + c)[..n] == b[..n]
  {
  }

  lemma MoveOver(done: seq<byte>, rest: seq<byte>, n: nat)
    requires n <= |rest|
    ensures done + rest[..n] + rest[n..] == done + rest
  {
  }

  /** BufferSequence::TotalBytes. */
  method TotalBytes(data: seq<seq<byte>>) returns (n: nat)
    ensures n == |Flatten(data)|
  {
    n := 0;
    var i := 0;
    FlattenNone(data);
    while i < |data|
      invariant i <= |data| && n == |Flatten(data[..i])|
    {
      FlattenMore(data, i);
      n := n + |data[i]|;
      i := i + 1;
    }
    assert data[..|data|] == data;
  }

  lemma FlattenNone(data: seq<seq<byte>>)
    ensures Flatten(data[..0]) == []
  {
  }

  lemma {:induction false} FlattenConcat(a: seq<seq<byte>>, b: seq<seq<byte>>)
    ensures Flatten(a + b) == Flatten(a) + Flatten(b)
  {
    if a == [] {
      assert a + b == b;
    } else {
      assert (a + b)[0] == a[0] && (a + b)[1..] == a[1..] + b;
      FlattenConcat(a[1..], b);
      AppendAssociates(a[0], Flatten(a[1..]), Flatten(b));
    }
  }

  lemma FlattenMore(data: seq<seq<byte>>, i: nat)
    requires i < |data|
    ensures Flatten(data[..i + 1]) == Flatten(data[..i]) + data[i] && |Flatten(data[..i + 1])| <= |Flatten(data)|
  {
    hide Flatten;
    assert data[..i + 1] == data[..i] + [data[i]];
    FlattenConcat(data[..i], [data[i]]);
    FlattenOne(data[i]);
    assert data == data[..i + 1] + data[i + 1..];
    FlattenConcat(data[..i + 1], data[i + 1..]);
  }
}
