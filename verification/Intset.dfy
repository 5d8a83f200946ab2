/** A sorted array of integers in slots of 2, 4 or 8 bytes: QedisCore/redisIntset.c. */
module Intset {
  import opened Bytes

  // ----- slots -----

  predicate IsEncoding(enc: nat) { enc == 2 || enc == 4 || enc == 8 }

  /** _intsetValueEncoding. */
  function ValueEncoding(v: int): (enc: nat)
    ensures IsEncoding(enc)
  {
    if v < -0x8000_0000 || v > 0x7fff_ffff then 8 else if v < -0x8000 || v > 0x7fff then 4 else 2
  }

  /** It is the least encoding that holds the value. */
  lemma LeastEncoding(v: int, enc: nat)
    requires IsEncoding(enc) && FitsSigned(v, 8)
    ensures FitsSigned(v, enc) <==> ValueEncoding(v) <= enc
  {
    assert Span(2) == 0x1_0000;
    assert Span(4) == 0x1_0000 * Span(2);
    assert Span(8) == 0x1_0000_0000 * Span(4) by {
      assert Span(6) == 0x1_0000 * Span(4) && Span(8) == 0x1_0000 * Span(6);
    }
  }

  /** Where slot i begins. */
  function Offset(i: nat, enc: nat): nat { i * enc }

  predicate InRange(c: seq<byte>, i: nat, enc: nat) { Offset(i, enc) + enc <= |c| }

  /** _intsetGetEncoded. */
  function Get(c: seq<byte>, i: nat, enc: nat): (v: int)
    ensures InRange(c, i, enc) ==> FitsSigned(v, enc)
  {
    if InRange(c, i, enc) then FromSigned(c[Offset(i, enc)..Offset(i, enc) + enc]) else 0
  }

  function Put(c: seq<byte>, i: nat, enc: nat, v: int): (r: seq<byte>)
    requires InRange(c, i, enc) && FitsSigned(v, enc)
    ensures |r| == |c|
  {
    c[..Offset(i, enc)] + ToSigned(v, enc) + c[Offset(i, enc) + enc..]
  }

  lemma SlotOrder(i: nat, j: nat, enc: nat)
    requires i < j
    ensures Offset(i, enc) + enc <= Offset(j, enc)
  {
    assert (i + 1) * enc <= j * enc;
  }

  lemma PutGet(c: seq<byte>, i: nat, enc: nat, v: int)
    requires InRange(c, i, enc) && FitsSigned(v, enc)
    ensures Get(Put(c, i, enc, v), i, enc) == v
  {
    hide ToSigned, FromSigned, Offset;
    FromToSigned(v, enc);
    assert Put(c, i, enc, v)[Offset(i, enc)..Offset(i, enc) + enc] == ToSigned(v, enc);
  }

  /** Slots of any width that end before the bytes written, or begin behind them, stay. */
  lemma PutKeeps(c: seq<byte>, i: nat, enc: nat, v: int, j: nat, enc': nat)
    requires InRange(c, i, enc) && FitsSigned(v, enc) && InRange(c, j, enc')
    requires Offset(j, enc') + enc' <= Offset(i, enc) || Offset(i, enc) + enc <= Offset(j, enc')
    ensures Get(Put(c, i, enc, v), j, enc') == Get(c, j, enc')
  {
    hide ToSigned, FromSigned, Offset;
    var a, b := Offset(j, enc'), Offset(j, enc') + enc';
    assert Put(c, i, enc, v)[a..b] == c[a..b];
  }

  /** The values of the first n slots. */
  function Values(c: seq<byte>, enc: nat, n: nat): (s: seq<int>)
    ensures |s| == n && forall i :: 0 <= i < n ==> s[i] == Get(c, i, enc)
  {
    seq(n, i requires 0 <= i < n => Get(c, i, enc))
  }

  predicate Ascending(s: seq<int>) { forall i, j :: 0 <= i < j < |s| ==> s[i] < s[j] }

  function Elements(s: seq<int>): set<int> { set x | x in s }

  /** Where a value belongs: everything before is less, everything from there on is greater. */
  predicate Splits(s: seq<int>, pos: nat, v: int) {
    && pos <= |s| && (forall i :: 0 <= i < pos ==> s[i] < v) && (forall i :: pos <= i < |s| ==> s[i] > v)
  }

  lemma InsertedAscends(s: seq<int>, pos: nat, v: int)
    requires Ascending(s) && Splits(s, pos, v)
    ensures Ascending(s[..pos] + [v] + s[pos..]) && v !in s
    ensures Elements(s[..pos] + [v] + s[pos..]) == Elements(s) + {v}
  {
    var t := s[..pos] + [v] + s[pos..];
    assert forall i :: 0 <= i < |t| ==> t[i] == if i < pos then s[i] else if i == pos then v else s[i - 1];
    assert t[pos] == v;
    forall x | x in s ensures x in t {
      var i :| 0 <= i < |s| && s[i] == x;
      assert t[if i < pos then i else i + 1] == x;
    }
  }

  lemma RemovedAscends(s: seq<int>, pos: nat)
    requires Ascending(s) && pos < |s|
    ensures Ascending(s[..pos] + s[pos + 1..])
    ensures Elements(s[..pos] + s[pos + 1..]) == Elements(s) - {s[pos]}
  {
    var t := s[..pos] + s[pos + 1..];
    assert forall i :: 0 <= i < |t| ==> t[i] == if i < pos then s[i] else s[i + 1];
    forall x | x in s && x != s[pos] ensures x in t {
      var i :| 0 <= i < |s| && s[i] == x;
      assert t[if i < pos then i else i - 1] == x;
    }
  }

  /** A value too wide for an encoding lies outside all that fit it. */
  lemma Outside(v: int, enc: nat, x: int)
    requires FitsSigned(x, enc) && !FitsSigned(v, enc)
    ensures if v < 0 then v < x else x < v
  {
  }

  /** Slots lo + shift to hi + shift hold the values lo to hi of s. */
  predicate Slots(c: seq<byte>, enc: nat, shift: nat, s: seq<int>, lo: nat, hi: nat) {
    hi <= |s| && forall j :: lo <= j < hi ==> SlotIs(c, enc, shift, s, j)
  }

  predicate SlotIs(c: seq<byte>, enc: nat, shift: nat, s: seq<int>, j: nat) {
    j < |s| && InRange(c, j + shift, enc) && Get(c, j + shift, enc) == s[j]
  }

  /** The step of the upgrade: slot k moves to slot k + shift of the wider encoding, in the same bytes. No slot below k
      has been overwritten yet, and no slot moved before is. */
  lemma UpgradeStep(c: seq<byte>, enc: nat, enc': nat, s: seq<int>, k: nat, shift: nat, n: nat)
    requires enc <= enc' && k < n && InRange(c, n - 1 + shift, enc') && k < |s| && FitsSigned(s[k], enc')
    requires Slots(c, enc, 0, s, 0, k + 1) && Slots(c, enc', shift, s, k + 1, n)
    ensures InRange(c, k + shift, enc')
    ensures var r := Put(c, k + shift, enc', s[k]); Slots(r, enc, 0, s, 0, k) && Slots(r, enc', shift, s, k, n)
  {
    hide Get, Put, FitsSigned, Offset;
    RangeBelow(c, k + shift, n - 1 + shift, enc');
    LowSlotsKept(c, enc, enc', s, k, shift);
    HighSlotsKept(c, enc', s, k, shift, n);
  }

  lemma LowSlotsKept(c: seq<byte>, enc: nat, enc': nat, s: seq<int>, k: nat, shift: nat)
    requires enc <= enc' && k < |s| && InRange(c, k + shift, enc') && FitsSigned(s[k], enc')
    requires Slots(c, enc, 0, s, 0, k + 1)
    ensures Slots(Put(c, k + shift, enc', s[k]), enc, 0, s, 0, k)
  {
    hide Get, Put, FitsSigned, Offset;
    var r := Put(c, k + shift, enc', s[k]);
    SlotBelow(k, shift, enc, enc');
    forall j | 0 <= j < k ensures SlotIs(r, enc, 0, s, j) {
      assert SlotIs(c, enc, 0, s, j);
      SlotOrder(j, k, enc);
      PutKeeps(c, k + shift, enc', s[k], j, enc);
    }
  }

  lemma SlotBelow(k: nat, shift: nat, enc: nat, enc': nat)
    requires enc <= enc'
    ensures Offset(k, enc) <= Offset(k + shift, enc')
  {
    assert k * enc <= k * enc' <= (k + shift) * enc';
  }

  lemma HighSlotsKept(c: seq<byte>, enc: nat, s: seq<int>, k: nat, shift: nat, n: nat)
    requires k < |s| && InRange(c, k + shift, enc) && FitsSigned(s[k], enc) && Slots(c, enc, shift, s, k + 1, n)
    ensures Slots(Put(c, k + shift, enc, s[k]), enc, shift, s, k, n)
  {
    hide Get, Put, FitsSigned, Offset;
    var r := Put(c, k + shift, enc, s[k]);
    PutGet(c, k + shift, enc, s[k]);
    forall j | k <= j < n ensures SlotIs(r, enc, shift, s, j) {
      if j > k {
        assert SlotIs(c, enc, shift, s, j);
        SlotOrder(k + shift, j + shift, enc);
        PutKeeps(c, k + shift, enc, s[k], j + shift, enc);
      }
    }
  }

  lemma RangeOf(c: seq<byte>, enc: nat, n: nat, i: nat)
    requires |c| == Offset(n, enc) && i < n
    ensures InRange(c, i, enc)
  {
    hide Offset;
    SlotOrder(i, n, enc);
  }

  lemma RangeBelow(c: seq<byte>, i: nat, j: nat, enc: nat)
    requires i <= j && InRange(c, j, enc)
    ensures InRange(c, i, enc)
  {
    hide Offset;
    if i < j {
      SlotOrder(i, j, enc);
    }
  }

  lemma SlotsOfPrefix(c: seq<byte>, r: seq<byte>, n: nat, enc: nat)
    requires Offset(n, enc) <= |c| && Offset(n, enc) <= |r| && c[..Offset(n, enc)] == r[..Offset(n, enc)]
    ensures Slots(r, enc, 0, Values(c, enc, n), 0, n)
  {
    hide Get, Offset;
    forall j | 0 <= j < n ensures SlotIs(r, enc, 0, Values(c, enc, n), j) {
      SlotOrder(j, n, enc);
      assert c[Offset(j, enc)..Offset(j, enc) + enc] == c[..Offset(n, enc)][Offset(j, enc)..Offset(j, enc) + enc];
      assert r[Offset(j, enc)..Offset(j, enc) + enc] == r[..Offset(n, enc)][Offset(j, enc)..Offset(j, enc) + enc];
      SameSlot(c, r, j, enc);
    }
  }

  lemma SameSlot(c: seq<byte>, r: seq<byte>, j: nat, enc: nat)
    requires InRange(c, j, enc) && InRange(r, j, enc)
    requires c[Offset(j, enc)..Offset(j, enc) + enc] == r[Offset(j, enc)..Offset(j, enc) + enc]
    ensures Get(c, j, enc) == Get(r, j, enc)
  {
  }

  /** The last step of the upgrade: the slot left free, at one of the ends, gets the new value. */
  lemma UpgradeEnd(c: seq<byte>, enc: nat, s: seq<int>, v: int)
    requires |c| == Offset(|s| + 1, enc) && FitsSigned(v, enc)
    requires Slots(c, enc, if v < 0 then 1 else 0, s, 0, |s|)
    ensures var free := if v < 0 then 0 else |s|;
            && InRange(c, free, enc)
            && Values(Put(c, free, enc, v), enc, |s| + 1) == if v < 0 then [v] + s else s + [v]
  {
    hide Get, Put, FitsSigned, Offset;
    var n, free, shift := |s|, if v < 0 then 0 else |s|, if v < 0 then 1 else 0;
    SlotOrder(free, n + 1, enc);
    PutGet(c, free, enc, v);
    var r := Put(c, free, enc, v);
    forall i | 0 <= i < n + 1 && i != free ensures Get(r, i, enc) == s[i - shift] {
      assert SlotIs(c, enc, shift, s, i - shift);
      if shift == 1 { SlotOrder(free, i, enc); } else { SlotOrder(i, free, enc); }
      PutKeeps(c, free, enc, v, i, enc);
    }
    var t := if v < 0 then [v] + s else s + [v];
    assert forall i :: 0 <= i < n + 1 ==> t[i] == if i == free then v else s[i - shift];
    assert Values(r, enc, n + 1) == t;
  }

  lemma WiderFits(v: int, enc: nat, enc': nat)
    requires FitsSigned(v, 8) && IsEncoding(enc) && enc' == ValueEncoding(v) && enc' > enc
    ensures FitsSigned(v, enc') && !FitsSigned(v, enc)
  {
    LeastEncoding(v, enc);
    LeastEncoding(v, enc');
  }

  lemma MemberFits(c: seq<byte>, enc: nat, n: nat, k: nat, enc': nat)
    requires |c| == Offset(n, enc) && k < n && IsEncoding(enc) && IsEncoding(enc') && enc <= enc'
    ensures FitsSigned(Get(c, k, enc), enc) && FitsSigned(Get(c, k, enc), enc')
  {
    SlotOrder(k, n, enc);
    assert Span(2) <= Span(3) <= Span(4) <= Span(5) <= Span(6) <= Span(7) <= Span(8);
  }

  /** All members fit the encoding, so a value that needs a wider one belongs at one of the ends. */
  lemma ValuesFit(c: seq<byte>, enc: nat, n: nat, v: int)
    requires |c| == Offset(n, enc) && IsEncoding(enc) && !FitsSigned(v, enc)
    ensures Splits(Values(c, enc, n), if v < 0 then 0 else n, v)
  {
    forall i | 0 <= i < n ensures var x := Values(c, enc, n)[i]; if v < 0 then v < x else x < v {
      MemberFits(c, enc, n, i, enc);
      Outside(v, enc, Get(c, i, enc));
    }
  }

  lemma NoSlots(c: seq<byte>, enc: nat, shift: nat, s: seq<int>)
    ensures Slots(c, enc, shift, s, |s|, |s|)
  {
  }

  lemma SlotHolds(c: seq<byte>, enc: nat, s: seq<int>, k: nat)
    requires Slots(c, enc, 0, s, 0, k + 1)
    ensures k < |s| && Get(c, k, enc) == s[k]
  {
    assert SlotIs(c, enc, 0, s, k);
  }

  lemma AtEnds(s: seq<int>, v: int)
    ensures s[..0] + [v] + s[0..] == [v] + s && s[..|s|] + [v] + s[|s|..] == s + [v]
  {
  }

  lemma OffsetSum(a: nat, b: nat, enc: nat)
    ensures Offset(a + b, enc) == Offset(a, enc) + Offset(b, enc)
  {
  }

  /** n slots copied from one place to another. */
  function MovedSlots(c: seq<byte>, enc: nat, from: nat, to: nat, n: nat): (r: seq<byte>)
    requires Offset(from + n, enc) <= |c| && Offset(to + n, enc) <= |c|
    ensures |r| == |c|
  {
    OffsetSum(from, n, enc);
    OffsetSum(to, n, enc);
    c[..Offset(to, enc)] + c[Offset(from, enc)..Offset(from, enc) + Offset(n, enc)]
    + c[Offset(to, enc) + Offset(n, enc)..]
  }

  lemma MovedSlot(c: seq<byte>, enc: nat, from: nat, to: nat, n: nat, i: nat)
    requires Offset(from + n, enc) <= |c| && Offset(to + n, enc) <= |c| && (i < to || to <= i < to + n)
    ensures var j := if i < to then i else i - to + from;
            InRange(c, j, enc) && Get(MovedSlots(c, enc, from, to, n), i, enc) == Get(c, j, enc)
  {
    hide Get, Offset;
    OffsetSum(from, n, enc);
    OffsetSum(to, n, enc);
    var t, f, m := Offset(to, enc), Offset(from, enc), Offset(n, enc);
    if i < to {
      SlotOrder(i, to, enc);
      MovedSlice(c, t, f, m, Offset(i, enc), enc);
      SameSlots(MovedSlots(c, enc, from, to, n), i, c, i, enc);
    } else {
      MovedSlotUp(c, enc, from, to, n, i - to, t, f, m);
    }
  }

  lemma MovedSlotUp(c: seq<byte>, enc: nat, from: nat, to: nat, n: nat, k: nat, t: nat, f: nat, m: nat)
    requires k < n && t == Offset(to, enc) && f == Offset(from, enc) && m == Offset(n, enc)
    requires t + m <= |c| && f + m <= |c|
    ensures InRange(c, k + from, enc) && Offset(from + n, enc) <= |c| && Offset(to + n, enc) <= |c|
    ensures Get(MovedSlots(c, enc, from, to, n), k + to, enc) == Get(c, k + from, enc)
  {
    hide Get, Offset;
    OffsetSum(from, n, enc);
    OffsetSum(to, n, enc);
    OffsetSum(to, k, enc);
    OffsetSum(from, k, enc);
    SlotOrder(k, n, enc);
    var r := MovedSlots(c, enc, from, to, n);
    var p := Offset(k, enc);
    MovedSlice(c, t, f, m, t + p, enc);
    assert Offset(k + to, enc) == t + p && Offset(k + from, enc) == f + p;
    SameSlots(r, k + to, c, k + from, enc);
  }

  lemma MovedSlice(c: seq<byte>, to: nat, from: nat, n: nat, i: nat, k: nat)
    requires to + n <= |c| && from + n <= |c| && (i + k <= to || (to <= i && i + k <= to + n))
    ensures var r, j := c[..to] + c[from..from + n] + c[to + n..], if i + k <= to then i else i - to + from;
            r[i..i + k] == c[j..j + k]
  {
    var r, j := c[..to] + c[from..from + n] + c[to + n..], if i + k <= to then i else i - to + from;
    var a, b := r[i..i + k], c[j..j + k];
    assert forall x :: 0 <= x < k ==> a[x] == b[x];
  }

  lemma SameSlots(c: seq<byte>, i: nat, r: seq<byte>, j: nat, enc: nat)
    requires InRange(c, i, enc) && InRange(r, j, enc)
    requires c[Offset(i, enc)..Offset(i, enc) + enc] == r[Offset(j, enc)..Offset(j, enc) + enc]
    ensures Get(c, i, enc) == Get(r, j, enc)
  {
  }

  /** A slot opened at pos and filled: the value is inserted there. */
  lemma Opened(c: seq<byte>, grown: seq<byte>, r: seq<byte>, enc: nat, n: nat, pos: nat, v: int)
    requires |c| == Offset(n, enc) && |r| == Offset(n + 1, enc) && pos <= n
    requires FitsSigned(v, enc) && InRange(r, pos, enc)
    requires |grown| == Offset(n + 1, enc) && Offset(n, enc) <= |grown| && c == grown[..Offset(n, enc)]
    requires r == if pos < n then MovedSlots(grown, enc, pos, pos + 1, n - pos) else grown
    ensures Values(Put(r, pos, enc, v), enc, n + 1)
            == Values(c, enc, n)[..pos] + [v] + Values(c, enc, n)[pos..]
  {
    hide Get, Put, FitsSigned, Offset;
    var s, p := Values(c, enc, n), Put(r, pos, enc, v);
    PutGet(r, pos, enc, v);
    forall i | 0 <= i < n + 1 && i != pos ensures Get(p, i, enc) == s[if i < pos then i else i - 1] {
      RangeOf(r, enc, n + 1, i);
      var j := if i < pos then i else i - 1;
      if i < pos { SlotOrder(i, pos, enc); } else { SlotOrder(pos, i, enc); }
      PutKeeps(r, pos, enc, v, i, enc);
      if pos < n {
        MovedSlot(grown, enc, pos, pos + 1, n - pos, i);
      }
      RangeOf(c, enc, n, j);
      SlotOrder(j, n, enc);
      assert grown[Offset(j, enc)..Offset(j, enc) + enc] == c[Offset(j, enc)..Offset(j, enc) + enc];
      SameSlots(grown, j, c, j, enc);
    }
    assert Values(p, enc, n + 1) == s[..pos] + [v] + s[pos..];
  }

  lemma LastSlot(enc: nat, n: nat)
    requires n > 0
    ensures Offset(n, enc) == Offset(n - 1, enc) + enc
  {
    OffsetSum(n - 1, 1, enc);
  }

  /** The slots behind pos moved down over it. */
  lemma Closed(c: seq<byte>, r: seq<byte>, enc: nat, n: nat, pos: nat)
    requires |c| == Offset(n, enc) && pos < n && |r| == Offset(n - 1, enc) <= |c|
    requires Offset(pos + 1 + (n - 1 - pos), enc) <= |c| && Offset(pos + (n - 1 - pos), enc) <= |c|
    requires r == MovedSlots(c, enc, pos + 1, pos, n - 1 - pos)[..Offset(n - 1, enc)]
    ensures Values(r, enc, n - 1) == Values(c, enc, n)[..pos] + Values(c, enc, n)[pos + 1..]
  {
    hide Get, Offset, MovedSlots;
    var s, moved := Values(c, enc, n), MovedSlots(c, enc, pos + 1, pos, n - 1 - pos);
    forall i | 0 <= i < n - 1 ensures Get(r, i, enc) == s[if i < pos then i else i + 1] {
      MovedSlot(c, enc, pos + 1, pos, n - 1 - pos, i);
      SlotOrder(i, n - 1, enc);
      SliceOfSlice(moved, 0, Offset(n - 1, enc), Offset(i, enc), Offset(i, enc) + enc);
      SameSlots(r, i, moved, i, enc);
    }
    assert Values(r, enc, n - 1) == s[..pos] + s[pos + 1..];
  }

  lemma MovedNothing(c: seq<byte>, enc: nat, n: nat, pos: nat)
    requires |c| == Offset(n, enc) && pos < n
    ensures pos == n - 1 ==> Offset(pos, enc) <= |c| && MovedSlots(c, enc, pos + 1, pos, 0) == c
  {
    LastSlot(enc, n);
  }

  lemma NotSplit(s: seq<int>, pos: nat, v: int)
    requires Splits(s, pos, v)
    ensures v !in s && Elements(s) - {v} == Elements(s)
  {
  }

  lemma NotMember(c: seq<byte>, enc: nat, n: nat, v: int)
    requires |c| == Offset(n, enc) && IsEncoding(enc) && FitsSigned(v, 8) && ValueEncoding(v) > enc
    ensures v !in Values(c, enc, n) && Elements(Values(c, enc, n)) - {v} == Elements(Values(c, enc, n))
  {
    WiderFits(v, enc, ValueEncoding(v));
    ValuesFit(c, enc, n, v);
    NotSplit(Values(c, enc, n), if v < 0 then 0 else n, v);
  }

  // ----- the struct -----

  class Intset {
    var encoding: nat
    var length: nat
    var contents: seq<byte>

    ghost predicate Valid()
      reads this
    {
      IsEncoding(encoding) && |contents| == Offset(length, encoding) && Ascending(Values(contents, encoding, length))
    }

    ghost function Contents(): seq<int>
      reads this
    {
      Values(contents, encoding, length)
    }

    /** With one more slot, in the encoding that results, the size fits the 32 bits of the program. */
    predicate Fits(value: int)
      reads this
    {
      Offset(length + 1, if ValueEncoding(value) > encoding then ValueEncoding(value) else encoding) < 0x1_0000_0000
    }

    constructor ()
      ensures Valid() && length == 0 && encoding == 2
    {
      encoding, length, contents := 2, 0, [];
    }

    /** intsetSearch. */
    method Search(value: int) returns (found: bool, pos: nat)
      requires Valid()
      ensures pos <= length
      ensures if found then pos < length && Contents()[pos] == value else Splits(Contents(), pos, value)
    {
      hide Get, Offset, InRange, Values;
      ghost var s := Contents();
      var min, max, mid: int, cur := 0, length - 1, -1, -1;
      if length == 0 {
        return false, 0;
      } else if value > Get(contents, length - 1, encoding) {
        return false, length;
      } else if value < Get(contents, 0, encoding) {
        return false, 0;
      }
      while max >= min
        invariant 0 <= min <= max + 1 <= length
        invariant forall i :: 0 <= i < min ==> s[i] < value
        invariant forall i :: max < i < length ==> s[i] > value
        invariant if mid == -1 then min <= max else 0 <= mid < length && cur == s[mid] && cur != value
        decreases max - min
      {
        mid := (min + max) / 2;
        cur := Get(contents, mid, encoding);
        if value > cur {
          min := mid + 1;
        } else if value < cur {
          max := mid - 1;
        } else {
          break;
        }
      }
      if value == cur {
        return true, mid;
      } else {
        return false, min;
      }
    }

    /** intsetResize: what realloc adds is arbitrary. */
    method Resize(len: nat)
      requires IsEncoding(encoding)
      modifies this`contents
      ensures |contents| == Offset(len, encoding)
      ensures forall i :: 0 <= i < |contents| && i < |old(contents)| ==> contents[i] == old(contents)[i]
    {
      var size := Offset(len, encoding);
      var added := new byte[size];
      contents := if size <= |contents| then contents[..size] else contents + added[..size - |contents|];
    }

    /** intsetUpgradeAndAdd. */
    method UpgradeAndAdd(value: int)
      requires Valid() && FitsSigned(value, 8) && ValueEncoding(value) > encoding && Fits(value)
      modifies this
      ensures Valid() && encoding == ValueEncoding(value)
      ensures Contents() == if value < 0 then [value] + old(Contents()) else old(Contents()) + [value]
      ensures value !in old(Contents()) && Elements(Contents()) == Elements(old(Contents())) + {value}
    {
      hide Get, Put, FitsSigned, Ascending, Slots, Values, InRange, ValueEncoding, Splits, Offset;
      ghost var s, before := Contents(), contents;
      var curenc, newenc, prepend := encoding, ValueEncoding(value), if value < 0 then 1 else 0;
      WiderFits(value, curenc, newenc);
      ValuesFit(before, curenc, length, value);
      encoding := newenc;
      Resize(length + 1);
      SlotBelow(length, 1, curenc, newenc);
      assert contents[..Offset(length, curenc)] == before[..Offset(length, curenc)];
      SlotsOfPrefix(before, contents, length, curenc);
      NoSlots(contents, newenc, prepend, s);
      var k: nat := length;
      while k > 0
        invariant length == old(length) && encoding == newenc
        invariant k <= length && |contents| == Offset(length + 1, newenc)
        invariant k >= 0 && Slots(contents, curenc, 0, s, 0, k) && Slots(contents, newenc, prepend, s, k, length)
      {
        k := k - 1;
        MemberFits(before, curenc, length, k, newenc);
        SlotHolds(contents, curenc, s, k);
        RangeOf(contents, newenc, length + 1, length - 1 + prepend);
        UpgradeStep(contents, curenc, newenc, s, k, prepend, length);
        contents := Put(contents, k + prepend, newenc, Get(contents, k, curenc));
      }
      UpgradeEnd(contents, newenc, s, value);
      contents := Put(contents, if prepend == 1 then 0 else length, newenc, value);
      length := length + 1;
      InsertedAscends(s, if value < 0 then 0 else |s|, value);
      AtEnds(s, value);
    }

    /** intsetMoveTail: memmove of all slots from the given one on. */
    method MoveTail(from: nat, to: nat)
      requires IsEncoding(encoding) && from <= length && Offset(length, encoding) <= |contents|
      requires Offset(to + (length - from), encoding) <= |contents|
      modifies this`contents
      ensures |contents| == |old(contents)|
      ensures contents == MovedSlots(old(contents), encoding, from, to, length - from)
    {
      hide Offset;
      OffsetSum(to, length - from, encoding);
      OffsetSum(from, length - from, encoding);
      var bytes := Offset(length - from, encoding);
      var src, dst := Offset(from, encoding), Offset(to, encoding);
      contents := contents[..dst] + contents[src..src + bytes] + contents[dst + bytes..];
    }

    /** intsetAdd. */
    method Add(value: int) returns (success: bool)
      requires Valid() && FitsSigned(value, 8) && Fits(value)
      modifies this
      ensures Valid() && success == (value !in old(Contents()))
      ensures Elements(Contents()) == Elements(old(Contents())) + {value}
      ensures length == old(length) + if success then 1 else 0
      ensures encoding == if ValueEncoding(value) > old(encoding) then ValueEncoding(value) else old(encoding)
    {
      hide Get, Put, FitsSigned, Ascending, Values, ValueEncoding, Splits, Slots, Offset, MovedSlots, InRange;
      ghost var s, c := Contents(), contents;
      if ValueEncoding(value) > encoding {
        UpgradeAndAdd(value);
        return true;
      }
      var found, pos := Search(value);
      if found {
        assert s[pos] == value;
        return false;
      }
      Resize(length + 1);
      OffsetSum(length, 1, encoding);
      ghost var grown := contents;
      assert c == grown[..Offset(length, encoding)];
      if pos < length {
        MoveTail(pos, pos + 1);
      }
      RangeOf(contents, encoding, length + 1, pos);
      LeastEncoding(value, encoding);
      Opened(c, grown, contents, encoding, length, pos, value);
      contents := Put(contents, pos, encoding, value);
      length := length + 1;
      InsertedAscends(s, pos, value);
      return true;
    }

    /** intsetRemove. */
    method Remove(value: int) returns (success: bool)
      requires Valid() && FitsSigned(value, 8)
      modifies this
      ensures Valid() && success == (value in old(Contents()))
      ensures Elements(Contents()) == Elements(old(Contents())) - {value}
      ensures length == old(length) - if success then 1 else 0
      ensures encoding == old(encoding)
    {
      hide Get, Put, FitsSigned, Ascending, Values, ValueEncoding, Splits, Slots, Offset, MovedSlots, InRange;
      ghost var s, c := Contents(), contents;
      success := false;
      if ValueEncoding(value) <= encoding {
        var found, pos := Search(value);
        if found {
          success := true;
          LastSlot(encoding, length);
          if pos < length - 1 {
            OffsetSum(pos, length - 1 - pos, encoding);
            MoveTail(pos + 1, pos);
          }
          ghost var moved := contents;
          MovedNothing(c, encoding, length, pos);
          Resize(length - 1);
          assert contents == moved[..|contents|];
          Closed(c, contents, encoding, length, pos);
          length := length - 1;
          RemovedAscends(s, pos);
          assert s[pos] == value;
        } else {
          NotSplit(s, pos, value);
        }
      } else {
        NotMember(c, encoding, length, value);
      }
    }

    /** intsetFind. */
    method Find(value: int) returns (found: bool)
      requires Valid() && FitsSigned(value, 8)
      ensures found == (value in Contents())
    {
      hide Get, FitsSigned, Ascending, Values, ValueEncoding, Splits, Offset;
      found := false;
      if ValueEncoding(value) <= encoding {
        var pos: nat;
        found, pos := Search(value);
        if !found {
          NotSplit(Contents(), pos, value);
        }
      } else {
        NotMember(contents, encoding, length, value);
      }
    }

    /** intsetGet: positions count upwards in the order of the values. */
    method Member(pos: nat) returns (r: bool, value: int)
      requires Valid()
      ensures r == (pos < length) && (r ==> value == Contents()[pos])
    {
      r, value := pos < length, 0;
      if r {
        value := Get(contents, pos, encoding);
      }
    }
  }
}
