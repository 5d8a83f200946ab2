/** The growing buffer of QBase/UnboundedBuffer.cc. */
module UnboundedBuffer {
  import opened Bytes

  const MAX_BUFFER_SIZE: nat := 0x7fff_ffff_ffff_ffff

  class UnboundedBuffer {
    var readPos: nat
    var writePos: nat
    var buffer: seq<byte>

    ghost predicate Valid()
      reads this
    {
      readPos <= writePos <= |buffer|
    }

    ghost function Contents(): seq<byte>
      requires Valid()
      reads this
    {
      buffer[readPos..writePos]
    }

    constructor ()
      ensures Valid() && Contents() == []
    {
      readPos, writePos, buffer := 0, 0, [];
    }

    function ReadableSize(): (n: nat)
      requires readPos <= writePos
      reads this
    {
      writePos - readPos
    }

    function WritableSize(): nat
      requires writePos <= |buffer|
      reads this
    {
      |buffer| - writePos
    }

    /** _AssureSpace: grows by half until the data fits behind what is readable, and moves that to the front. */
    method AssureSpace(size: nat)
      requires Valid() && ReadableSize() + size <= MAX_BUFFER_SIZE
      modifies this
      ensures Valid() && Contents() == old(Contents()) && size <= WritableSize()
    {
      if size <= WritableSize() { return; }
      var maxSize := |buffer|;
      while size > WritableSize() + readPos
        invariant readPos == old(readPos) && writePos == old(writePos)
        invariant Valid() && maxSize == |buffer| && Contents() == old(Contents())
        decreases ReadableSize() + size - maxSize
      {
        if maxSize < 64 {
          maxSize := 64;
        } else if maxSize <= MAX_BUFFER_SIZE {
          maxSize := maxSize + maxSize / 2;
        } else {
          break;
        }
        buffer := buffer + seq(maxSize - |buffer|, _ => 0);
      }
      if readPos > 0 {
        var dataSize := ReadableSize();
        buffer := buffer[readPos..readPos + dataSize] + buffer[dataSize..];
        readPos, writePos := 0, dataSize;
      }
    }

    /** PushDataAt: the bytes go offset bytes behind what is readable. */
    method PushDataAt(data: seq<byte>, offset: nat) returns (n: nat)
      requires Valid() && ReadableSize() + offset + |data| <= MAX_BUFFER_SIZE
      modifies this
      ensures Valid() && Contents() == old(Contents()) && n == |data|
      ensures data != [] ==> offset + n <= WritableSize() && buffer[writePos + offset..writePos + offset + n] == data
    {
      if data == [] || ReadableSize() == MAX_BUFFER_SIZE { return 0; }
      AssureSpace(|data| + offset);
      var at := writePos + offset;
      buffer := buffer[..at] + data + buffer[at + |data|..];
      return |data|;
    }

    /** PushData. */
    method PushData(data: seq<byte>) returns (n: nat)
      requires Valid() && ReadableSize() + |data| <= MAX_BUFFER_SIZE
      modifies this
      ensures Valid() && Contents() == old(Contents()) + data && n == |data|
    {
      n := PushDataAt(data, 0);
      writePos := writePos + n;
    }

    method AdjustReadPtr(n: nat)
      requires Valid() && n <= ReadableSize()
      modifies this`readPos
      ensures Valid() && Contents() == old(Contents())[n..]
    {
      readPos := readPos + n;
    }

    /** PeekDataAt: as many as there are, up to size, from offset on. */
    method PeekDataAt(size: nat, offset: nat) returns (data: seq<byte>)
      requires Valid()
      ensures data == if offset >= ReadableSize() then []
                      else if size + offset > ReadableSize() then Contents()[offset..]
                      else Contents()[offset..offset + size]
    {
      var dataSize := ReadableSize();
      if size == 0 || dataSize <= offset { return []; }
      var n := if size + offset > dataSize then dataSize - offset else size;
      SliceOfSlice(buffer, readPos, writePos, offset, offset + n);
      data := buffer[readPos + offset..readPos + offset + n];
    }

    method Swap(that: UnboundedBuffer)
      requires Valid() && that.Valid() && that != this
      modifies this, that
      ensures Valid() && that.Valid()
      ensures Contents() == old(that.Contents()) && that.Contents() == old(Contents())
    {
      buffer, that.buffer := that.buffer, buffer;
      readPos, that.readPos := that.readPos, readPos;
      writePos, that.writePos := that.writePos, writePos;
    }
  }
}
