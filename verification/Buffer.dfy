/** The power-of-two ring of QBase/Buffer.h. Positions go around by a mask with maxSize - 1. */
module Buffer {
  import opened Bytes

  predicate IsPower2(n: nat) { n == 1 || (n > 1 && n % 2 == 0 && IsPower2(n / 2)) }

  /** The least power of two that is not below size. */
  method RoundUp2Power(size: nat) returns (r: nat)
    ensures if size == 0 then r == 0 else IsPower2(r) && size <= r && (r == 1 || r < 2 * size)
  {
    if size == 0 { return 0; }
    r := 1;
    while r < size
      invariant IsPower2(r) && (r == 1 || r < 2 * size)
      decreases size - r
    {
      r := 2 * r;
    }
  }

  /** a & b */
  function And(a: nat, b: nat): nat {
    if a == 0 || b == 0 then 0 else 2 * And(a / 2, b / 2) + (a % 2) * (b % 2)
  }

  lemma {:induction false} AndSelf(a: nat)
    ensures And(a, a) == a
  {
    if a > 0 {
      AndSelf(a / 2);
      assert a % 2 * (a % 2) == a % 2;
      assert a == 2 * (a / 2) + a % 2;
    }
  }

  /** A mask with max - 1 is the remainder. */
  lemma {:induction false} MaskIsRemainder(i: nat, max: nat)
    requires IsPower2(max)
    ensures And(i, max - 1) == i % max
  {
    if max > 1 {
      var half := max / 2;
      MaskIsRemainder(i / 2, half);
      HalfRemainder(i, half);
      assert (max - 1) / 2 == half - 1 && (max - 1) % 2 == 1;
      AndOdd(i, max - 1);
    }
  }

  lemma AndOdd(a: nat, b: nat)
    requires b % 2 == 1
    ensures And(a, b) == 2 * And(a / 2, b / 2) + a % 2
  {
  }

  lemma HalfRemainder(i: nat, half: nat)
    requires half > 0
    ensures i % (2 * half) == 2 * (i / 2 % half) + i % 2
  {
    var q, r := i / 2 / half, i / 2 % half;
    assert i / 2 == half * q + r;
    Unique(i, 2 * half, q, 2 * r + i % 2);
  }

  lemma Unique(n: int, m: int, q: int, r: int)
    requires 0 <= r < m && n == m * q + r
    ensures n % m == r
  {
    Multiple(m, q, n / m, n % m - r);
  }

  /** No multiple of m but 0 is so near to 0. */
  lemma Multiple(m: int, a: int, b: int, d: int)
    requires -m < d < m && m * a - m * b == d
    ensures d == 0
  {
    if a > b {
      Grows(m, a - b);
    } else if a < b {
      Grows(m, b - a);
    }
  }

  lemma Grows(m: int, d: int)
    requires m > 0 && d >= 1
    ensures m * d >= m
  {
  }

  /** For no other size would it be: max itself would not become 0. */
  lemma {:induction false} OnlyPowersMask(max: nat)
    requires max > 0
    ensures And(max, max - 1) == max % max <==> IsPower2(max)
  {
    if max > 1 {
      if max % 2 == 0 {
        OnlyPowersMask(max / 2);
        assert (max - 1) / 2 == max / 2 - 1;
      } else {
        assert (max - 1) / 2 == max / 2;
        AndSelf(max / 2);
      }
    }
  }

  /** size_t wraps around. */
  const FULL := 0x1_0000_0000_0000_0000

  function Pow2(k: nat): nat { if k == 0 then 1 else 2 * Pow2(k - 1) }

  lemma {:induction false} Pow2IsPower(k: nat)
    ensures IsPower2(Pow2(k)) && Pow2(k) >= 1
  {
    hide IsPower2;
    if k == 0 {
      OneIsPower();
    } else {
      Pow2IsPower(k - 1);
      Doubled(Pow2(k - 1));
    }
  }

  lemma OneIsPower()
    ensures IsPower2(1)
  {
  }

  lemma Doubled(n: nat)
    requires IsPower2(n)
    ensures IsPower2(2 * n)
  {
    assert 2 * n / 2 == n;
  }

  lemma {:induction false} PowersAdd(a: nat, b: nat)
    ensures Pow2(a + b) == Pow2(a) * Pow2(b)
  {
    if b > 0 {
      PowersAdd(a, b - 1);
      assert Pow2(a + b) == 2 * (Pow2(a) * Pow2(b - 1));
    }
  }

  lemma Square(k: nat, v: nat)
    requires Pow2(k) == v
    ensures Pow2(2 * k) == v * v
  {
    PowersAdd(k, k);
  }

  lemma FullIsPower()
    ensures IsPower2(FULL)
  {
    Pow2IsPower(64);
    assert Pow2(1) == 2;
    hide Pow2, IsPower2;
    Square(1, 2);
    Square(2, 4);
    Square(4, 0x10);
    Square(8, 0x100);
    Square(16, 0x1_0000);
    Square(32, 0x1_0000_0000);
  }

  lemma {:induction false} PowerDivides(a: nat, b: nat)
    requires IsPower2(a) && IsPower2(b) && a <= b
    ensures b % a == 0
  {
    if a > 1 {
      PowerDivides(a / 2, b / 2);
      var q := b / 2 / (a / 2);
      assert b / 2 == a / 2 * q;
      Unique(b, a, q, 0);
    }
  }

  /** A position on the ring; both arguments stay below twice the size. */
  function Wrap(i: nat, max: nat): (k: nat)
    requires 0 < max && i < 2 * max
    ensures k < max
  {
    if i < max then i else i - max
  }

  lemma MaskWraps(i: int, max: nat)
    requires IsPower2(max) && max <= MAX_SIZE && 0 < i + max < 3 * max
    ensures And(i % FULL, max - 1) == if i < 0 then i + max else Wrap(i, max)
  {
    hide IsPower2, And;
    MaskIsRemainder(i % FULL, max);
    if i < 0 {
      FullIsPower();
      PowerDivides(max, FULL);
      Below(i, FULL / max, max);
    } else {
      Above(i, max);
    }
  }

  lemma Above(i: nat, max: nat)
    requires 0 < max <= MAX_SIZE && i < 2 * max
    ensures i % FULL % max == Wrap(i, max)
  {
    assert i % FULL == i;
    Unique(i, max, if i < max then 0 else 1, Wrap(i, max));
  }

  lemma Below(i: int, q: int, max: nat)
    requires 0 < -i < max <= MAX_SIZE && q == FULL / max && FULL % max == 0
    ensures i % FULL % max == i + max
  {
    assert FULL == max * q;
    Unique(i + FULL, max, q - 1, i + max);
    assert i % FULL == i + FULL;
  }

  /** InitCapacity allows 2^30 bytes, before they are rounded up. */
  const MAX_SIZE := 0x8000_0000

  /** i & (max - 1), i being a difference of positions or a sum. */
  function Mask(i: int, max: nat): (k: nat)
    requires IsPower2(max) && max <= MAX_SIZE && 0 < i + max < 3 * max
    ensures k == if i < 0 then i + max else Wrap(i, max)
  {
    MaskWraps(i, max);
    And(i % FULL, max - 1)
  }

  /** n bytes of the ring a from position r on. */
  function Ring(a: seq<byte>, r: nat, n: nat): (s: seq<byte>)
    requires r < |a| && n <= |a|
    ensures |s| == n && forall i :: 0 <= i < n ==> s[i] == a[Wrap(r + i, |a|)]
  {
    seq(n, i requires 0 <= i < n => a[Wrap(r + i, |a|)])
  }

  /** A stretch of the ring is one piece of the array, or a piece at its end and a piece at its beginning. */
  lemma RingPieces(a: seq<byte>, r: nat, n: nat)
    requires r < |a| && n <= |a|
    ensures Ring(a, r, n) == if r + n <= |a| then a[r..r + n] else a[r..] + a[..r + n - |a|]
  {
  }

  lemma RingSplit(a: seq<byte>, r: nat, m: nat, n: nat)
    requires r < |a| && m + n <= |a|
    ensures m < |a| ==> Ring(a, r, m + n) == Ring(a, r, m) + Ring(a, Wrap(r + m, |a|), n)
  {
  }

  lemma RingSlice(a: seq<byte>, r: nat, m: nat, o: nat, n: nat)
    requires r < |a| && o + n <= m <= |a| && o < |a|
    ensures Ring(a, r, m)[o..o + n]
            == var q := Wrap(r + o, |a|); if q + n <= |a| then a[q..q + n] else a[q..] + a[..q + n - |a|]
  {
    RingPieces(a, Wrap(r + o, |a|), n);
    assert Ring(a, r, m)[o..o + n] == Ring(a, Wrap(r + o, |a|), n);
  }

  lemma LeftToRead(r: nat, w: nat, max: nat, offset: nat)
    requires r < max && w < max && offset < Wrap(w + max - r, max)
    ensures var q := Wrap(r + offset, max);
            q != w && Wrap(w + max - r, max) - offset == if q < w then w - q else max - q + w
  {
  }

  lemma WriteIsBehind(r: nat, w: nat, max: nat)
    requires r < max && w < max
    ensures Wrap(r + Wrap(w + max - r, max), max) == w && Wrap(w + 0, max) == w
  {
  }

  /** There is room for size bytes offset bytes behind w, before r or around the end. */
  lemma Room(r: nat, w: nat, max: nat, offset: nat, size: nat)
    requires r < max && w < max && Wrap(w + max - r, max) + offset + size < max
    ensures var at, n := Wrap(w + offset, max), Wrap(w + max - r, max);
            at == Wrap(r + n + offset, max) && size < if r > at then r - at else max - at + r
  {
  }

  /** b is a with data written from position at on, around the end of the array if need be. */
  predicate IsPlaced(a: seq<byte>, at: nat, data: seq<byte>, b: seq<byte>)
    requires at < |a| && |data| <= |a|
  {
    && |b| == |a|
    && forall k :: 0 <= k < |a| ==>
         b[k] == if at <= k < at + |data| then data[k - at]
                 else if k + |a| < at + |data| then data[k + |a| - at] else a[k]
  }

  lemma PlacedReads(a: seq<byte>, at: nat, data: seq<byte>, b: seq<byte>)
    requires at < |a| && |data| <= |a| && IsPlaced(a, at, data, b)
    ensures Ring(b, at, |data|) == data
  {
  }

  lemma PlacedKeeps(a: seq<byte>, r: nat, n: nat, offset: nat, data: seq<byte>, b: seq<byte>)
    requires r < |a| && n + offset + |data| < |a|
    requires IsPlaced(a, Wrap(r + n + offset, |a|), data, b)
    ensures Ring(b, r, n) == Ring(a, r, n)
  {
  }

  /** The readable bytes from offset on, at most limit of them. */
  lemma Shown(a: seq<byte>, r0: nat, w: nat, offset: nat, limit: nat)
    requires r0 < |a| && w < |a| && offset < Wrap(w + |a| - r0, |a|)
    ensures var n, r := Wrap(w + |a| - r0, |a|), Wrap(r0 + offset, |a|);
            var m := Min(limit, if r < w then w - r else |a| - r + w);
            && r != w && m <= |a|
            && Ring(a, r0, n)[offset..Min(offset + limit, n)]
               == if r + m <= |a| then a[r..r + m] else a[r..] + a[..r + m - |a|]
  {
    hide Ring;
    var n := Wrap(w + |a| - r0, |a|);
    LeftToRead(r0, w, |a|, offset);
    RingSlice(a, r0, n, offset, Min(limit, n - offset));
  }

  lemma Next(a: seq<byte>, r0: nat, w: nat, offset: nat, size: nat)
    requires r0 < |a| && w < |a| && 0 < size && offset + size <= Wrap(w + |a| - r0, |a|)
    ensures var n, r := Wrap(w + |a| - r0, |a|), Wrap(r0 + offset, |a|);
            && r != w && size <= (if r < w then w - r else |a| - r + w)
            && Ring(a, r0, n)[offset..offset + size]
               == if r + size <= |a| then a[r..r + size] else a[r..] + a[..r + size - |a|]
  {
    hide Ring;
    var n := Wrap(w + |a| - r0, |a|);
    LeftToRead(r0, w, |a|, offset);
    RingSlice(a, r0, n, offset, size);
  }

  /** The bytes from r to w, around the end of the array if need be, at most limit of them. */
  method Pieces(a: seq<byte>, r: nat, w: nat, limit: nat) returns (pieces: seq<seq<byte>>)
    requires r != w && r < |a| && w < |a| && limit > 0
    ensures |pieces| <= 2
    ensures var n := Min(limit, if r < w then w - r else |a| - r + w);
            Flatten(pieces) == if r + n <= |a| then a[r..r + n] else a[r..] + a[..r + n - |a|]
  {
    hide Flatten;
    if r < w {
      pieces := [a[r..r + if limit < w - r then limit else w - r]];
      FlattenOne(pieces[0]);
    } else {
      var first := if limit > |a| - r then |a| - r else limit;
      pieces := [a[r..r + first]];
      FlattenOne(pieces[0]);
      var left := limit - first;
      if left > 0 && w > 0 {
        var rest := a[..if left > w then w else left];
        FlattenTwo(pieces[0], rest);
        pieces := [pieces[0], rest];
      }
    }
  }

  class CircularBuffer {
    const maxSize: nat
    const buffer: array<byte>
    var readPos: nat
    var writePos: nat

    ghost predicate Valid()
      reads this`readPos, this`writePos
    {
      IsPower2(maxSize) && maxSize <= MAX_SIZE && buffer.Length == maxSize && readPos < maxSize && writePos < maxSize
    }

    constructor (size: nat)
      requires 0 < size <= 0x4000_0000
      ensures Valid() && fresh(buffer) && readPos == writePos == 0 && maxSize >= size
    {
      var n := RoundUp2Power(size);
      maxSize := n;
      buffer := new byte[n];
      readPos, writePos := 0, 0;
    }

    function ReadableSize(): (n: nat)
      requires Valid()
      reads this`readPos, this`writePos
      ensures n < maxSize && n == Wrap(writePos + maxSize - readPos, maxSize)
    {
      Mask(writePos - readPos, maxSize)
    }

    function WritableSize(): nat
      requires Valid()
      reads this`readPos, this`writePos
    {
      maxSize - ReadableSize() - 1
    }

    predicate IsEmpty()
      reads this
    {
      writePos == readPos
    }

    ghost function Contents(): (s: seq<byte>)
      requires Valid()
      reads this`readPos, this`writePos, buffer
      ensures |s| == ReadableSize()
    {
      Ring(buffer[..], readPos, ReadableSize())
    }

    /** memcpy into the ring's array. */
    method Copy(at: nat, data: seq<byte>)
      requires at + |data| <= buffer.Length
      modifies buffer
      ensures forall k :: 0 <= k < buffer.Length ==>
                buffer[k] == if at <= k < at + |data| then data[k - at] else old(buffer[k])
    {
      forall k | 0 <= k < |data| {
        buffer[at + k] := data[k];
      }
    }

    /** PushDataAt: the bytes go behind what is readable, offset bytes further; all or nothing. */
    method PushDataAt(data: seq<byte>, offset: nat) returns (ok: bool)
      requires Valid()
      modifies buffer
      ensures ok == (data == [] || offset + |data| <= WritableSize())
      ensures ok && data != [] ==> Ring(buffer[..], Wrap(writePos + offset, maxSize), |data|) == data
      ensures Contents() == old(Contents())
      ensures !ok || data == [] ==> buffer[..] == old(buffer[..])
    {
      hide IsPower2, Mask, Ring, Wrap, IsPlaced;
      if data == [] { return true; }
      if offset + |data| > WritableSize() { return false; }
      var at := Mask(writePos + offset, maxSize);
      ghost var before, n := buffer[..], ReadableSize();
      Room(readPos, writePos, maxSize, offset, |data|);
      CopyAround(at, data);
      PlacedReads(before, at, data, buffer[..]);
      PlacedKeeps(before, readPos, n, offset, data, buffer[..]);
      return true;
    }

    /** The part of PushDataAt that copies, up to the end of the array and then from its beginning. */
    method CopyAround(at: nat, data: seq<byte>)
      requires Valid() && at < maxSize && |data| < if readPos > at then readPos - at else maxSize - at + readPos
      modifies buffer
      ensures IsPlaced(old(buffer[..]), at, data, buffer[..])
    {
      if readPos > at {
        assert readPos - at > |data|;
        Copy(at, data);
      } else {
        var avail1, avail2 := maxSize - at, readPos;
        assert avail1 + avail2 >= 1 + |data|;
        if avail1 >= |data| + 1 {
          Copy(at, data);
        } else {
          Copy(at, data[..avail1]);
          Copy(0, data[avail1..]);
        }
      }
    }

    method AdjustWritePtr(size: nat)
      requires Valid() && size <= WritableSize()
      modifies this`writePos
      ensures Valid() && writePos == Wrap(old(writePos) + size, maxSize)
      ensures ReadableSize() == old(ReadableSize()) + size
    {
      writePos := Mask(writePos + size, maxSize);
    }

    /** PushData. */
    method PushData(data: seq<byte>) returns (ok: bool)
      requires Valid()
      modifies buffer, this`writePos
      ensures Valid() && ok == (|data| <= old(WritableSize()))
      ensures Contents() == if ok then old(Contents()) + data else old(Contents())
    {
      hide IsPower2, Mask, Ring, Wrap;
      ok := PushDataAt(data, 0);
      if ok {
        ghost var n := ReadableSize();
        WriteIsBehind(readPos, writePos, maxSize);
        RingSplit(buffer[..], readPos, n, |data|);
        AdjustWritePtr(|data|);
      }
    }

    /** AdjustReadPtr. */
    method AdjustReadPtr(size: nat)
      requires Valid() && size <= ReadableSize()
      modifies this`readPos
      ensures Valid() && Contents() == old(Contents())[size..]
    {
      RingSplit(buffer[..], readPos, size, ReadableSize() - size);
      readPos := Mask(readPos + size, maxSize);
    }

    /** GetDatum: the readable bytes from offset on, at most limit of them, as one or two pieces of the array. */
    method GetDatum(limit: nat, offset: nat) returns (pieces: seq<seq<byte>>)
      requires Valid()
      ensures |pieces| <= 2
      ensures Flatten(pieces) == if offset >= ReadableSize() then []
                                 else Contents()[offset..Min(offset + limit, ReadableSize())]
    {
      hide Ring, Flatten, IsPower2, Wrap, Mask, And, Min;
      if limit == 0 || offset >= ReadableSize() {
        return NoPieces();
      }
      var r := Mask(readPos + offset, maxSize);
      Shown(buffer[..], readPos, writePos, offset, limit);
      pieces := Pieces(buffer[..], r, writePos, limit);
    }

    /** PeekDataAt: the next size bytes from offset on; all or nothing. */
    method PeekDataAt(size: nat, offset: nat) returns (ok: bool, data: seq<byte>)
      requires Valid()
      ensures ok == (size == 0 || size + offset <= ReadableSize())
      ensures data == if ok && size > 0 then Contents()[offset..offset + size] else []
    {
      hide Ring, IsPower2, Mask, Wrap;
      if size == 0 { return true, []; }
      if size + offset > ReadableSize() { return false, []; }
      var r, w := Mask(readPos + offset, maxSize), writePos;
      Next(buffer[..], readPos, writePos, offset, size);
      if r < w {
        assert w - r >= size;
        return true, buffer[r..r + size];
      } else {
        assert r > w;
        var avail1 := maxSize - r;
        if avail1 >= size {
          return true, buffer[r..r + size];
        } else {
          return true, buffer[r..] + buffer[..size - avail1];
        }
      }
    }
  }

  function Min(a: nat, b: nat): (m: nat)
    ensures m <= a && m <= b && (m == a || m == b)
  {
    if a < b then a else b
  }

  function Flatten(pieces: seq<seq<byte>>): seq<byte> {
    if pieces == [] then [] else pieces[0] + Flatten(pieces[1..])
  }

  function NoPieces(): (pieces: seq<seq<byte>>)
    ensures pieces == [] && Flatten(pieces) == []
  {
    []
  }

  lemma FlattenOne(a: seq<byte>)
    ensures Flatten([a]) == a
  {
    assert Flatten([a]) == a + Flatten([]);
  }

  lemma FlattenTwo(a: seq<byte>, b: seq<byte>)
    ensures Flatten([a, b]) == a + b
  {
    assert [a, b][1..] == [b];
    FlattenOne(b);
  }
}
