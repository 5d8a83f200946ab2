/** Ziplists as bytes: QedisCore/redisZipList.c. A list is one buffer holding its size, the offset of its last
    entry, a 16-bit count, the entries and an end byte; the ghost parameters name the entries it stands for. */
module Ziplist {
  import opened Bytes
  import opened Options
  import opened Integers
  import opened ZiplistFormat

  const HEADER := 10
  const UNKNOWN := 0xffff

  // ----- fixed-width fields of a buffer -----

  function Field(zl: seq<byte>, i: nat, k: nat): nat
    requires i + k <= |zl|
  {
    FromLE(zl[i..i + k])
  }

  function SetField(zl: seq<byte>, i: nat, k: nat, v: nat): (r: seq<byte>)
    requires i + k <= |zl|
    ensures |r| == |zl|
  {
    zl[..i] + ToLE(v, k) + zl[i + k..]
  }

  lemma FieldIsSet(zl: seq<byte>, i: nat, k: nat, v: nat)
    requires i + k <= |zl| && v < Span(k)
    ensures Field(SetField(zl, i, k, v), i, k) == v
    ensures forall j :: 0 <= j < |zl| && !(i <= j < i + k) ==> SetField(zl, i, k, v)[j] == zl[j]
  {
    FromToLE(v, k);
    var le := ToLE(v, k);
    hide ToLE, FromLE;
    assert (zl[..i] + le + zl[i + k..])[i..i + k] == le;
  }

  lemma SameField(zl: seq<byte>, zl': seq<byte>, i: nat, k: nat)
    requires i + k <= |zl| && i + k <= |zl'| && forall j :: i <= j < i + k ==> zl[j] == zl'[j]
    ensures Field(zl, i, k) == Field(zl', i, k)
  {
    assert zl[i..i + k] == zl'[i..i + k];
  }

  // ----- what a buffer stands for -----

  /** Where the last of the entries from p on begins. */
  function TailOffset(p: nat, es: seq<Entry>): nat
    decreases |es|
  {
    if |es| < 2 then p else TailOffset(p + es[0].Raw(), es[1..])
  }

  /** From p to the end mark the buffer holds es. */
  ghost predicate Stores(zl: seq<byte>, p: nat, es: seq<Entry>) {
    AreEntries(es) && HEADER <= p && |zl| == p + Total(es) + 1 < LIMIT && zl[p..] == Flat(es) + [ZIP_END]
  }

  /** It does, and its two size fields agree with that. */
  ghost predicate Holds(zl: seq<byte>, p: nat, es: seq<Entry>) {
    Stores(zl, p, es) && Field(zl, 0, 4) == |zl| && Field(zl, 4, 4) == TailOffset(p, es)
  }

  /** The counter is exact until it saturates; from then on it only says that the entries must be counted. */
  ghost predicate CountOk(zl: seq<byte>, n: nat) {
    |zl| >= HEADER && (Field(zl, 8, 2) == n || Field(zl, 8, 2) == UNKNOWN)
  }

  ghost predicate WellFormed(zl: seq<byte>, es: seq<Entry>) {
    Holds(zl, HEADER, es) && Linked(es) && CountOk(zl, |es|)
  }

  lemma {:induction false} TailOffsetShift(p: nat, d: nat, es: seq<Entry>)
    ensures TailOffset(p + d, es) == TailOffset(p, es) + d
    decreases |es|
  {
    if |es| >= 2 {
      TailOffsetShift(p + es[0].Raw(), d, es[1..]);
    }
  }

  lemma {:induction false} TailOffsetConcat(p: nat, a: seq<Entry>, b: seq<Entry>)
    requires b != []
    ensures TailOffset(p, a + b) == TailOffset(p + Total(a), b)
    decreases |a|
  {
    if a == [] {
      assert a + b == b;
    } else {
      assert (a + b)[0] == a[0] && (a + b)[1..] == a[1..] + b;
      TailOffsetConcat(p + a[0].Raw(), a[1..], b);
    }
  }

  lemma Extent(zl: seq<byte>, p: nat, es: seq<Entry>)
    requires Stores(zl, p, es)
    ensures HEADER <= p && |zl| == p + Total(es) + 1 < LIMIT && AreEntries(es)
  {
  }

  lemma StoresPrepend(zl: seq<byte>, p: nat, a: seq<Entry>, b: seq<Entry>)
    requires HEADER <= p && AreEntries(a) && Stores(zl, p + Total(a), b)
    requires zl[p..p + Total(a)] == Flat(a)
    ensures Stores(zl, p, a + b)
  {
    Concat(a, b);
    hide AreEntries, Flat, Total, Links, Items;
    SplitSlice(zl, p, p + Total(a));
    AppendAssociates(Flat(a), Flat(b), [ZIP_END]);
  }

  lemma StoresSplit(zl: seq<byte>, p: nat, a: seq<Entry>, b: seq<Entry>)
    requires Stores(zl, p, a + b)
    ensures AreEntries(a) && p + Total(a) < |zl| && zl[p..p + Total(a)] == Flat(a)
    ensures Stores(zl, p + Total(a), b)
  {
    Concat(a, b);
    hide AreEntries, Flat, Total, Links, Items;
    AppendAssociates(Flat(a), Flat(b), [ZIP_END]);
    TailParts(zl, p, Flat(a), Flat(b) + [ZIP_END]);
  }

  lemma HoldsPrepend(zl: seq<byte>, p: nat, a: seq<Entry>, b: seq<Entry>)
    requires HEADER <= p && AreEntries(a) && b != [] && Holds(zl, p + Total(a), b)
    requires zl[p..p + Total(a)] == Flat(a)
    ensures Holds(zl, p, a + b)
  {
    hide AreEntries, Flat, Stores, Field;
    StoresPrepend(zl, p, a, b);
    TailOffsetConcat(p, a, b);
  }

  lemma HoldsSplit(zl: seq<byte>, p: nat, a: seq<Entry>, b: seq<Entry>)
    requires Holds(zl, p, a + b) && b != []
    ensures Holds(zl, p + Total(a), b)
  {
    StoresSplit(zl, p, a, b);
    TailOffsetConcat(p, a, b);
  }

  /** The end mark is where the entries end, and nowhere else. */
  lemma AtEnd(zl: seq<byte>, p: nat, es: seq<Entry>)
    requires Stores(zl, p, es)
    ensures p < |zl| && (zl[p] == ZIP_END <==> es == [])
    ensures zl[|zl| - 1] == ZIP_END
  {
    assert zl[p] == zl[p..][0];
    assert zl[|zl| - 1] == zl[p..][|zl| - 1 - p];
  }
  // ----- reading an entry -----

  /** zipEntry: the widths of the first two fields, the length recorded of the entry before, the encoding byte and
      the payload's length. */
  datatype ZlEntry = ZlEntry(prevSize: nat, prevLen: nat, lenSize: nat, len: nat, encoding: byte) {
    function Raw(): nat { prevSize + lenSize + len }
  }

  function PrevSizeAt(zl: seq<byte>, p: nat): nat
    requires p < |zl|
  {
    if zl[p] < ZIP_BIGLEN then 1 else 5
  }

  predicate Readable(zl: seq<byte>, p: nat) {
    p < |zl| &&
    var q := p + PrevSizeAt(zl, p);
    q < |zl| && q + LenSize(zl[q]) <= |zl|
  }

  function ZipEntry(zl: seq<byte>, p: nat): ZlEntry
    requires Readable(zl, p)
  {
    var q := p + PrevSizeAt(zl, p);
    ZlEntry(q - p, if q - p == 1 then zl[p] else FromLE(zl[p + 1..p + 5]), LenSize(zl[q]), PayloadLen(zl[q..]), zl[q])
  }

  /** An entry reads back as what was written, whatever surrounds it. */
  lemma ReadEntry(zl: seq<byte>, p: nat, e: Entry)
    requires IsEntry(e) && p + e.Raw() <= |zl| && zl[p..p + e.Raw()] == EntryBytes(e)
    ensures Readable(zl, p) && zl[p] != ZIP_END
    ensures ZipEntry(zl, p)
            == ZlEntry(e.prevSize, e.prevLen, LenSize(e.body[0]), |e.body| - LenSize(e.body[0]), e.body[0])
    ensures zl[p + e.prevSize..p + e.Raw()] == e.body
  {
    var n := e.prevSize;
    SliceOfSlice(zl, p, p + e.Raw(), n, e.Raw());
    AppendPrefix(PrevBytes(e), e.body);
    assert zl[p] == zl[p..p + e.Raw()][0];
    if n == 5 {
      SliceOfSlice(zl, p, p + e.Raw(), 1, 5);
      assert EntryBytes(e)[1..5] == ToLE(e.prevLen, 4);
      assert Span(4) == LIMIT;
      FromToLE(e.prevLen, 4);
    }
    SameBody(zl, p + n, e.body);
  }

  lemma SameBody(zl: seq<byte>, q: nat, body: seq<byte>)
    requires IsBody(body) && q + |body| <= |zl| && zl[q..q + |body|] == body
    ensures zl[q] == body[0] && LenSize(body[0]) <= |zl[q..]| && PayloadLen(zl[q..]) == PayloadLen(body)
  {
    SplitSlice(zl, q, q + |body|);
    var s := zl[q..];
    assert forall i :: 0 <= i < |body| ==> s[i] == body[i];
    assert s[0] == zl[q];
    if LenSize(body[0]) == 5 {
      assert s[1..5] == body[1..5];
    }
  }

  /** What a cursor at p finds: its entry, and where the next one begins. */
  lemma ReadFirst(zl: seq<byte>, p: nat, es: seq<Entry>)
    requires Stores(zl, p, es) && es != []
    ensures Readable(zl, p) && zl[p] != ZIP_END && IsEntry(es[0])
    ensures var e := ZipEntry(zl, p);
            && e.prevSize == es[0].prevSize && e.prevLen == es[0].prevLen && e.Raw() == es[0].Raw()
            && e.encoding == es[0].body[0] && e.lenSize == LenSize(e.encoding) && e.prevSize == PrevSizeAt(zl, p)
    ensures p + es[0].Raw() < |zl| && zl[p + es[0].prevSize..p + es[0].Raw()] == es[0].body
    ensures Stores(zl, p + es[0].Raw(), es[1..])
    ensures zl[p + es[0].Raw()] == ZIP_END <==> |es| == 1
  {
    hide AreEntries, Flat, Total, Stores, EntryBytes;
    FirstEntry(zl, p, es);
    AtEnd(zl, p + es[0].Raw(), es[1..]);
    ReadEntry(zl, p, es[0]);
  }

  lemma FirstEntry(zl: seq<byte>, p: nat, es: seq<Entry>)
    requires Stores(zl, p, es) && es != []
    ensures IsEntry(es[0]) && p + es[0].Raw() < |zl| && zl[p..p + es[0].Raw()] == EntryBytes(es[0])
    ensures Stores(zl, p + es[0].Raw(), es[1..])
  {
    assert es == [es[0]] + es[1..];
    assert Total([es[0]]) == es[0].Raw();
    assert Flat([es[0]]) == EntryBytes(es[0]) + Flat([]);
    hide AreEntries, Flat, Total;
    StoresSplit(zl, p, [es[0]], es[1..]);
  }

  /** The bytes determine the entries: naming them as ghost parameters adds nothing to the buffer. */
  lemma {:induction false} Unambiguous(zl: seq<byte>, p: nat, a: seq<Entry>, b: seq<Entry>)
    requires Stores(zl, p, a) && Stores(zl, p, b)
    ensures a == b
    decreases |a|
  {
    hide AreEntries, Flat, Total, Stores, ZipEntry;
    AtEnd(zl, p, a);
    AtEnd(zl, p, b);
    if a != [] {
      ReadFirst(zl, p, a);
      ReadFirst(zl, p, b);
      Unambiguous(zl, p + a[0].Raw(), a[1..], b[1..]);
      assert a[0] == b[0];
      assert a == [a[0]] + a[1..] && b == [b[0]] + b[1..];
    }
  }

  // ----- steps of an edit -----

  /** realloc: what is added is arbitrary. */
  method Resize(zl: seq<byte>, len: nat) returns (r: seq<byte>)
    requires HEADER <= |zl| && HEADER < len < LIMIT
    ensures |r| == len && Field(r, 0, 4) == len && r[len - 1] == ZIP_END
    ensures forall i :: 4 <= i < len - 1 && i < |zl| ==> r[i] == zl[i]
  {
    var added := new byte[len];
    r := if len <= |zl| then zl[..len] else zl + added[..len - |zl|];
    assert Span(4) == LIMIT;
    FieldIsSet(r, 0, 4, len);
    r := SetField(r, 0, 4, len);
    var r' := r[len - 1 := ZIP_END];
    SameField(r, r', 0, 4);
    r := r';
  }

  function Put(zl: seq<byte>, at: nat, bytes: seq<byte>): (r: seq<byte>)
    requires at + |bytes| <= |zl|
    ensures |r| == |zl| && forall i :: 0 <= i < |zl| ==> r[i] == if at <= i < at + |bytes| then bytes[i - at] else zl[i]
  {
    zl[..at] + bytes + zl[at + |bytes|..]
  }

  /** Splits the buffer after the first field of an entry. */
  lemma AfterField(zl: seq<byte>, p: nat, es: seq<Entry>)
    requires Stores(zl, p, es) && es != []
    ensures IsEntry(es[0]) && AreEntries(es[1..]) && p + es[0].Raw() + Total(es[1..]) + 1 == |zl|
    ensures zl[p..p + es[0].prevSize] == PrevBytes(es[0])
    ensures zl[p + es[0].prevSize..] == es[0].body + (Flat(es[1..]) + [ZIP_END])
  {
    var a, b, c, d := PrevBytes(es[0]), es[0].body, Flat(es[1..]), [ZIP_END];
    FlatFirst(es);
    hide AreEntries, Flat, Total, PrevBytes;
    AppendAssociates(a + b, c, d);
    AppendAssociates(a, b, c + d);
    TailParts(zl, p, a, b + (c + d));
  }

  lemma FlatFirst(es: seq<Entry>)
    requires AreEntries(es) && es != []
    ensures IsEntry(es[0]) && AreEntries(es[1..]) && Total(es) == es[0].Raw() + Total(es[1..])
    ensures Flat(es) == PrevBytes(es[0]) + es[0].body + Flat(es[1..])
  {
  }

  lemma FromField(zl: seq<byte>, p: nat, e: Entry, es: seq<Entry>)
    requires HEADER <= p && IsEntry(e) && AreEntries(es) && |zl| == p + e.Raw() + Total(es) + 1 < LIMIT
    requires zl[p..p + e.prevSize] == PrevBytes(e) && zl[p + e.prevSize..] == e.body + (Flat(es) + [ZIP_END])
    ensures Stores(zl, p, [e] + es)
  {
    var a, b, c, d := PrevBytes(e), e.body, Flat(es), [ZIP_END];
    assert ([e] + es)[1..] == es;
    FlatFirst([e] + es);
    hide AreEntries, Flat, Total, PrevBytes;
    AppendAssociates(a + b, c, d);
    AppendAssociates(a, b, c + d);
    SplitSlice(zl, p, p + |a|);
  }

  /** The first field replaced, perhaps by one of another width, and the rest moved along: the entries stay, only
      that field changes. */
  lemma Refielded(zl: seq<byte>, p: nat, es: seq<Entry>, r: seq<byte>, at: nat, size: nat, len: nat)
    requires Stores(zl, p, es) && es != [] && HEADER <= at && p + es[0].prevSize <= |zl|
    requires if size == 1 then len < 254 else size == 5 && len < LIMIT
    requires at + size <= |r| < LIMIT && r[at..at + size] == PrevEncode(len, size)
    requires r[at + size..] == zl[p + es[0].prevSize..]
    ensures Stores(r, at, [Entry(size, len, es[0].body)] + es[1..])
  {
    hide AreEntries, Flat, Total, Stores, PrevEncode;
    AfterField(zl, p, es);
    FromField(r, at, Entry(size, len, es[0].body), es[1..]);
  }

  /** memmove, then a field written in front of what was moved. */
  method MoveAndPut(zl: seq<byte>, dst: nat, src: nat, n: nat, at: nat, field: seq<byte>) returns (r: seq<byte>)
    requires dst + n <= |zl| && src + n <= |zl| && at <= dst <= at + |field| <= dst + n
    ensures |r| == |zl| && r[at..at + |field|] == field
    ensures r[at + |field|..] == zl[src + (at + |field| - dst)..src + n] + zl[dst + n..]
    ensures forall i :: 0 <= i < at ==> r[i] == zl[i]
  {
    var moved := zl[..dst] + zl[src..src + n] + zl[dst + n..];
    r := moved[..at] + field + moved[at + |field|..];
  }

  lemma {:induction false} TailOffsetAtLeast(p: nat, es: seq<Entry>)
    requires AreEntries(es)
    ensures TailOffset(p, es) >= p && (TailOffset(p, es) == p <==> |es| < 2)
    ensures TailOffset(p, es) <= p + Total(es)
    decreases |es|
  {
    if |es| >= 2 {
      TailOffsetAtLeast(p + es[0].Raw(), es[1..]);
    }
  }

  /** The tail offset moves with the tail, unless the first entry is the tail. */
  lemma TailOffsetStep(p: nat, es: seq<Entry>)
    requires AreEntries(es) && |es| >= 2
    ensures var np := p + es[0].Raw();
            && TailOffset(p, es) == TailOffset(np, es[1..]) && (TailOffset(p, es) == np <==> |es| == 2)
  {
    TailOffsetAtLeast(p + es[0].Raw(), es[1..]);
  }

  lemma TailOffsetFirst(p: nat, q: nat, a: Entry, b: Entry, es: seq<Entry>)
    ensures TailOffset(q, [b] + es) == TailOffset(p, [a] + es) + (q - p) + (if es == [] then 0 else b.Raw() - a.Raw())
  {
    assert ([a] + es)[1..] == es && ([b] + es)[1..] == es;
    var x, y := p + a.Raw(), q + b.Raw();
    if es != [] {
      if x <= y { TailOffsetShift(x, y - x, es); } else { TailOffsetShift(y, x - y, es); }
    }
  }

  /** The tail offset is a 32-bit unsigned integer. */
  method SetTail(zl: seq<byte>, v: int) returns (r: seq<byte>)
    requires HEADER <= |zl|
    ensures |r| == |zl| && Field(r, 4, 4) == v % LIMIT && Field(r, 0, 4) == Field(zl, 0, 4)
    ensures forall i :: 8 <= i < |zl| ==> r[i] == zl[i]
  {
    assert Span(4) == LIMIT;
    FieldIsSet(zl, 4, 4, v % LIMIT);
    r := SetField(zl, 4, 4, v % LIMIT);
    SameField(zl, r, 0, 4);
  }

  lemma StillStores(zl: seq<byte>, r: seq<byte>, p: nat, es: seq<Entry>)
    requires Stores(zl, p, es) && |r| == |zl| && forall i :: p <= i < |zl| ==> r[i] == zl[i]
    ensures Stores(r, p, es)
  {
    assert r[p..] == zl[p..];
  }

  // ----- the cascade -----

  /** What the tail offset becomes when the entry after the first one grows. */
  lemma WidenedTail(p: nat, es: seq<Entry>)
    requires AreEntries(es) && |es| >= 2
    requires es[1].prevSize == 1 && PrevSize(es[0].Raw()) == 5
    ensures var np, tail := p + es[0].Raw(), TailOffset(p, es);
            && np <= tail <= p + Total(es)
            && TailOffset(np, Stepped(es)) == if tail != np then tail + 4 else tail
  {
    var np := p + es[0].Raw();
    var rest := es[1..];
    assert rest == [es[1]] + es[2..];
    TailOffsetAtLeast(p, es);
    TailOffsetAtLeast(np, rest);
    TailOffsetStep(p, es);
    TailOffsetFirst(np, np, es[1], Stepped(es)[0], es[2..]);
  }

  /** Four bytes are put into the first field of the entry at p, once the buffer has room for them at its end. */
  method WidenField(zl: seq<byte>, ghost zl0: seq<byte>, p: nat, ghost es: seq<Entry>, rawlen: nat)
      returns (r: seq<byte>)
    requires Stores(zl0, p, es) && es != [] && es[0].prevSize == 1 && 254 <= rawlen < LIMIT
    requires |zl| == |zl0| + 4 < LIMIT && zl[|zl| - 1] == ZIP_END
    requires forall i :: p <= i < |zl0| - 1 ==> zl[i] == zl0[i]
    ensures Stores(r, p, [Entry(5, rawlen, es[0].body)] + es[1..])
    ensures |r| == |zl| && forall i :: 0 <= i < p ==> r[i] == zl[i]
  {
    hide Stores, AreEntries, Total, Flat, PrevEncode;
    Extent(zl0, p, es);
    AfterField(zl0, p, es);
    AtEnd(zl0, p, es);
    r := MoveAndPut(zl, p + 5, p + 1, |zl| - 4 - p - 1 - 1, p, PrevEncode(rawlen, 5));
    assert r[p + 5..] == zl0[p + 1..];
    Refielded(zl0, p, es, r, p, 5, rawlen);
  }

  /** The next entry's field grows by four bytes. */
  method WidenNext(zl: seq<byte>, p: nat, ghost es: seq<Entry>) returns (r: seq<byte>)
    requires Holds(zl, p, es) && |es| >= 2 && |zl| + 4 < LIMIT
    requires es[1].prevSize == 1 && PrevSize(es[0].Raw()) == 5
    ensures Holds(r, p + es[0].Raw(), Stepped(es)) && |r| == |zl| + 4
    ensures forall i :: 8 <= i < p + es[0].Raw() ==> r[i] == zl[i]
  {
    hide Stores, AreEntries, Total, Flat, TailOffset, Field;
    ReadFirst(zl, p, es);
    Extent(zl, p, es);
    WidenedTail(p, es);
    ghost var rest := es[1..];
    assert Stepped(es) == [Entry(5, es[0].Raw(), rest[0].body)] + rest[1..];
    var rawlen := ZipEntry(zl, p).Raw();
    var np := p + rawlen;
    var r1 := GrowTail(zl, Field(zl, 0, 4) + 4, np);
    r := WidenField(r1, zl, np, rest, rawlen);
    SameField(r1, r, 0, 4);
    SameField(r1, r, 4, 4);
  }

  method GrowTail(zl: seq<byte>, len: nat, np: nat) returns (r: seq<byte>)
    requires HEADER < |zl| && |zl| + 4 == len < LIMIT && Field(zl, 4, 4) + 4 < LIMIT
    ensures |r| == len && Field(r, 0, 4) == len && r[len - 1] == ZIP_END
    ensures Field(r, 4, 4) == if Field(zl, 4, 4) != np then Field(zl, 4, 4) + 4 else np
    ensures forall i :: 8 <= i < |zl| - 1 ==> r[i] == zl[i]
  {
    r := Resize(zl, len);
    SameField(zl, r, 4, 4);
    if Field(r, 4, 4) != np {
      r := SetTail(r, Field(r, 4, 4) + 4);
    }
  }

  /** The field of the next entry is rewritten in its width. */
  method SetNext(zl: seq<byte>, p: nat, ghost es: seq<Entry>) returns (r: seq<byte>)
    requires Holds(zl, p, es) && |es| >= 2 && es[1].prevSize >= PrevSize(es[0].Raw())
    ensures Holds(r, p, [es[0]] + Stepped(es)) && |r| == |zl|
    ensures forall i :: 8 <= i < p ==> r[i] == zl[i]
  {
    hide Stores, AreEntries, Total, Flat, TailOffset, Field, Stepped, PrevEncode, ZipEntry, Readable, PrevSizeAt, Put;
    ReadFirst(zl, p, es);
    ReadFirst(zl, p + es[0].Raw(), es[1..]);
    SetTailKept(p, es);
    Extent(zl, p, es);
    var rawlen := ZipEntry(zl, p).Raw();
    var next := ZipEntry(zl, p + rawlen);
    r := Put(zl, p + rawlen, PrevEncode(rawlen, if next.prevSize > PrevSize(rawlen) then 5 else PrevSize(rawlen)));
    NextIsSet(zl, r, p, es);
    SameField(zl, r, 0, 4);
    SameField(zl, r, 4, 4);
  }

  lemma NextIsSet(zl: seq<byte>, r: seq<byte>, p: nat, es: seq<Entry>)
    requires HEADER <= p && Stores(zl, p, es) && |es| >= 2 && es[1].prevSize >= PrevSize(es[0].Raw())
    requires IsEntry(es[1]) && p + es[0].Raw() + es[1].Raw() < |zl|
    requires es[0].Raw() < LIMIT && r == Put(zl, p + es[0].Raw(), PrevEncode(es[0].Raw(), es[1].prevSize))
    ensures Stores(r, p, [es[0]] + Stepped(es))
  {
    hide Stores, AreEntries, Total, Flat, Stepped;
    FirstEntry(zl, p, es);
    OneEntry(es[0]);
    Extent(zl, p, es);
    var np, rest := p + es[0].Raw(), es[1..];
    AfterField(zl, np, rest);
    SteppedInPlace(es);
    assert r[np + rest[0].prevSize..] == zl[np + rest[0].prevSize..];
    Refielded(zl, np, rest, r, np, rest[0].prevSize, es[0].Raw());
    assert r[p..np] == zl[p..np];
    StoresPrepend(r, p, [es[0]], Stepped(es));
  }

  lemma SteppedInPlace(es: seq<Entry>)
    requires |es| >= 2 && es[1].prevSize >= PrevSize(es[0].Raw())
    ensures Stepped(es) == [Entry(es[1].prevSize, es[0].Raw(), es[1].body)] + es[1..][1..]
  {
  }

  lemma OneEntry(e: Entry)
    requires IsEntry(e)
    ensures AreEntries([e]) && Total([e]) == e.Raw() && Flat([e]) == EntryBytes(e)
  {
    assert Flat([e]) == EntryBytes(e) + Flat([]);
  }

  lemma SetTailKept(p: nat, es: seq<Entry>)
    requires |es| >= 2 && es[1].prevSize >= PrevSize(es[0].Raw())
    ensures TailOffset(p, [es[0]] + Stepped(es)) == TailOffset(p, es)
  {
    var np := p + es[0].Raw();
    assert es[1..] == [es[1]] + es[2..] && ([es[0]] + Stepped(es))[1..] == Stepped(es);
    TailOffsetFirst(np, np, es[1], Stepped(es)[0], es[2..]);
  }

  /** One widening of the cascade. */
  lemma CascadeStep(es: seq<Entry>)
    requires AreEntries(es) && |es| >= 2 && Links(es[1..]) && Total(Cascade(es)) < LIMIT
    requires es[1].prevLen != es[0].Raw() && es[1].prevSize < PrevSize(es[0].Raw())
    ensures es[1].prevSize == 1 && PrevSize(es[0].Raw()) == 5
    ensures Links(Stepped(es)[1..]) && Cascade(es) == [es[0]] + Cascade(Stepped(es))
    ensures Total(es) + 4 <= Total(Cascade(es)) == es[0].Raw() + Total(Cascade(Stepped(es)))
  {
    SteppedLinks(es);
    assert Cascade(es)[1..] == Cascade(Stepped(es));
    assert Stepped(es)[1..] == es[2..] && es[1..][1..] == es[2..];
    CascadeRepairs(Stepped(es));
  }

  /** The cursor moves on by one entry, which is done with. */
  lemma Advance(zl: seq<byte>, zl': seq<byte>, p0: nat, p: nat, done: seq<Entry>, es: seq<Entry>)
    requires Stores(zl, p, es) && es != [] && AreEntries(done) && p0 + Total(done) == p && zl[p0..p] == Flat(done)
    requires p + es[0].Raw() <= |zl'| && forall i :: p0 <= i < p + es[0].Raw() ==> i < |zl| && zl'[i] == zl[i]
    ensures AreEntries(done + [es[0]]) && p0 + Total(done + [es[0]]) == p + es[0].Raw()
    ensures zl'[p0..p + es[0].Raw()] == Flat(done + [es[0]])
  {
    hide AreEntries, Total, Flat, Stores, Links, Items, EntryBytes, IsEntry;
    Extent(zl, p, es);
    FirstEntry(zl, p, es);
    OneEntry(es[0]);
    Concat(done, [es[0]]);
    assert zl'[p0..p + es[0].Raw()] == zl[p0..p] + zl[p..p + es[0].Raw()];
  }

  lemma SteppedSettles(es: seq<Entry>)
    requires |es| >= 2 && es[1].prevSize >= PrevSize(es[0].Raw()) && es[1].prevLen != es[0].Raw()
    ensures var r := [es[0]] + Stepped(es); r == Cascade(es) && r == Cascade(r)
  {
  }

  lemma NothingDone(zl: seq<byte>, p: nat)
    requires p <= |zl|
    ensures AreEntries([]) && Total([]) == 0 && zl[p..p] == Flat([])
  {
  }

  lemma CascadeSettles(es: seq<Entry>)
    requires es != [] && (|es| < 2 || es[1].prevLen == es[0].Raw() || es[1].prevSize >= PrevSize(es[0].Raw()))
    ensures Cascade(es) == if |es| < 2 || es[1].prevLen == es[0].Raw() then es else [es[0]] + Stepped(es)
  {
  }

  /** __ziplistCascadeUpdate. */
  method CascadeUpdate(zl0: seq<byte>, p0: nat, ghost es: seq<Entry>) returns (zl: seq<byte>)
    requires Holds(zl0, p0, es) && es != [] && Links(es[1..]) && p0 + Total(Cascade(es)) + 1 < LIMIT
    ensures Holds(zl, p0, Cascade(es))
    ensures forall i :: 8 <= i < p0 ==> zl[i] == zl0[i]
  {
    zl := zl0;
    var p: nat := p0;
    ghost var done: seq<Entry>, rest := [], es;
    hide Stores, Flat, TailOffset, Field, Links, Cascade, Total, AreEntries, ZipEntry, Readable, PrevSizeAt, Stepped;
    AtEnd(zl, p, es);
    Extent(zl, p, es);
    NothingDone(zl, p0);
    while zl[p] != ZIP_END
      invariant Holds(zl, p, rest) && rest != [] && Links(rest[1..]) && p + Total(Cascade(rest)) + 1 < LIMIT
      invariant p0 <= p < |zl|
      invariant AreEntries(done) && p0 + Total(done) == p && zl[p0..p] == Flat(done)
      invariant done + Cascade(rest) == Cascade(es)
      invariant forall i :: 8 <= i < p0 ==> zl[i] == zl0[i]
      decreases |rest|
    {
      ReadFirst(zl, p, rest);
      var rawlen := ZipEntry(zl, p).Raw();
      var rawlensize := PrevSize(rawlen);
      if zl[p + rawlen] == ZIP_END {
        CascadeSettles(rest);
        break;
      }
      ReadFirst(zl, p + rawlen, rest[1..]);
      var next := ZipEntry(zl, p + rawlen);
      if next.prevLen == rawlen {
        CascadeSettles(rest);
        break;
      }
      if next.prevSize < rawlensize {
        ghost var was := zl;
        Extent(zl, p, rest);
        CascadeStep(rest);
        zl := WidenNext(zl, p, rest);
        Advance(was, zl, p0, p, done, rest);
        AppendAssociates(done, [rest[0]], Cascade(Stepped(rest)));
        Extent(zl, p + rawlen, Stepped(rest));
        AtEnd(zl, p + rawlen, Stepped(rest));
        p := p + rawlen;
        done, rest := done + [rest[0]], Stepped(rest);
      } else {
        zl := SetNext(zl, p, rest);
        SteppedSettles(rest);
        rest := [rest[0]] + Stepped(rest);
        break;
      }
    }
    AtEnd(zl, p, rest);
    Extent(zl0, p0, es);
    HoldsPrepend(zl, p0, done, rest);
  }

  // ----- insertion -----

  /** The tail offset changes, and no entry does. */
  method MoveTail(zl: seq<byte>, p: nat, d: int, ghost es: seq<Entry>) returns (r: seq<byte>)
    requires Stores(zl, p, es) && es != []
    ensures Stores(r, p, es) && |r| == |zl| && Field(r, 0, 4) == Field(zl, 0, 4)
    ensures Field(r, 4, 4) == (Field(zl, 4, 4) + d) % LIMIT
    ensures Readable(r, p) && ZipEntry(r, p).Raw() == es[0].Raw() && p + es[0].Raw() < |r|
    ensures r[p + es[0].Raw()] == ZIP_END <==> |es| == 1
    ensures forall i :: 8 <= i < |r| ==> r[i] == zl[i]
  {
    hide Stores, Total, AreEntries, Flat, ZipEntry, TailOffset, Field, Readable;
    Extent(zl, p, es);
    r := SetTail(zl, Field(zl, 4, 4) + d);
    StillStores(zl, r, p, es);
    ReadFirst(r, p, es);
  }

  lemma OffsetFits(zl: seq<byte>, p: nat, es: seq<Entry>)
    requires Stores(zl, p, es)
    ensures TailOffset(p, es) < |zl| < LIMIT
  {
    TailOffsetAtLeast(p, es);
  }


  /** Where the tail offset points. */
  lemma {:induction false} TailOffsetIs(p: nat, es: seq<Entry>)
    requires es != []
    ensures TailOffset(p, es) == p + Total(es[..|es| - 1])
    decreases |es|
  {
    if |es| >= 2 {
      TailOffsetIs(p + es[0].Raw(), es[1..]);
      assert es[..|es| - 1] == [es[0]] + es[1..][..|es| - 2];
    }
  }

  lemma LastEntry(zl: seq<byte>, p: nat, es: seq<Entry>)
    requires Holds(zl, p, es) && es != []
    ensures Stores(zl, Field(zl, 4, 4), es[|es| - 1..])
  {
    hide Stores, Total, AreEntries, Flat, TailOffset;
    TailOffsetIs(p, es);
    assert es == es[..|es| - 1] + es[|es| - 1..];
    StoresSplit(zl, p, es[..|es| - 1], es[|es| - 1..]);
  }

  /** The length of the entry before the cursor: recorded at the cursor, or read off the tail. */
  method PrevLenBefore(zl: seq<byte>, p: nat, ghost left: seq<Entry>, ghost right: seq<Entry>) returns (prevlen: nat)
    requires Holds(zl, HEADER, left + right) && p == HEADER + Total(left)
    ensures prevlen == if right != [] then right[0].prevLen else if left != [] then left[|left| - 1].Raw() else 0
  {
    hide Stores, Total, AreEntries, Flat, ZipEntry, TailOffset;
    StoresSplit(zl, HEADER, left, right);
    AtEnd(zl, p, right);
    prevlen := 0;
    if zl[p] != ZIP_END {
      ReadFirst(zl, p, right);
      prevlen := ZipEntry(zl, p).prevLen;
    } else {
      assert left + right == left;
      var tail := Field(zl, 4, 4);
      if left != [] {
        LastEntry(zl, HEADER, left);
        ReadFirst(zl, tail, left[|left| - 1..]);
      } else {
        NoEntries(HEADER);
      }
      if zl[tail] != ZIP_END {
        prevlen := ZipEntry(zl, tail).Raw();
      }
    }
  }

  lemma NoEntries(p: nat)
    ensures Total([]) == 0 && TailOffset(p, []) == p
  {
  }

  /** The tail offset when the entries from p on move by reqlen, and the first of them changes its width. */
  lemma GapTail(p: nat, reqlen: nat, es: seq<Entry>)
    requires es != [] && AreEntries(es)
    ensures var tail := TailOffset(p, es) + reqlen;
            && 0 <= tail <= p + reqlen + Total(es)
            && TailOffset(p + reqlen, Relinked(es, reqlen))
               == tail + if |es| == 1 then 0 else PrevSize(reqlen) - es[0].prevSize
  {
    assert es == [es[0]] + es[1..];
    TailOffsetAtLeast(p, es);
    TailOffsetFirst(p, p + reqlen, es[0], Relinked(es, reqlen)[0], es[1..]);
  }

  lemma RelinkedIs(es: seq<Entry>, len: nat)
    requires es != []
    ensures Relinked(es, len) == [Entry(PrevSize(len), len, es[0].body)] + es[1..]
    ensures Relinked(es, len)[0].Raw() == es[0].Raw() + PrevSize(len) - es[0].prevSize
    ensures |Relinked(es, len)| == |es|
  {
  }

  method MoveEntries(zl0: seq<byte>, p: nat, reqlen: nat, nextdiff: int, ghost es: seq<Entry>) returns (zl: seq<byte>)
    requires Holds(zl0, p, es) && es != [] && reqlen < LIMIT
    requires 0 <= reqlen + nextdiff < LIMIT - |zl0| && nextdiff == PrevSize(reqlen) - es[0].prevSize
    ensures Stores(zl, p + reqlen, Relinked(es, reqlen)) && |zl| == |zl0| + reqlen + nextdiff
    ensures Field(zl, 0, 4) == |zl| && Field(zl, 4, 4) == Field(zl0, 4, 4)
    ensures forall i :: 8 <= i < p ==> zl[i] == zl0[i]
  {
    hide Stores, Total, AreEntries, Flat, TailOffset, Field, Relinked, PrevEncode;
    Extent(zl0, p, es);
    var curlen := Field(zl0, 0, 4);
    var resized := Resize(zl0, curlen + reqlen + nextdiff);
    SameField(zl0, resized, 4, 4);
    AtEnd(zl0, p, es);
    zl := MoveBehind(resized, zl0, p, reqlen, nextdiff, es);
    SameField(resized, zl, 0, 4);
    SameField(resized, zl, 4, 4);
  }

  method MoveBehind(resized: seq<byte>, zl0: seq<byte>, p: nat, reqlen: nat, nextdiff: int, ghost es: seq<Entry>)
      returns (zl: seq<byte>)
    requires Stores(zl0, p, es) && es != [] && reqlen < LIMIT
    requires |zl0| <= |resized| == |zl0| + reqlen + nextdiff < LIMIT && nextdiff == PrevSize(reqlen) - es[0].prevSize
    requires resized[|resized| - 1] == ZIP_END && forall i :: 4 <= i < |zl0| - 1 ==> resized[i] == zl0[i]
    ensures Stores(zl, p + reqlen, Relinked(es, reqlen)) && |zl| == |resized|
    ensures forall i :: 0 <= i < p ==> zl[i] == resized[i]
  {
    hide Stores, Total, AreEntries, Flat, Relinked, PrevEncode;
    Extent(zl0, p, es);
    AfterField(zl0, p, es);
    AtEnd(zl0, p, es);
    RelinkedIs(es, reqlen);
    var size := PrevSize(reqlen);
    zl := MoveAndPut(resized, p + reqlen, p - nextdiff, |zl0| - p - 1 + nextdiff, p + reqlen, PrevEncode(reqlen, size));
    MovedAll(zl0, resized, p + es[0].prevSize);
    assert resized[p + es[0].prevSize..|zl0| - 1] + resized[|resized| - 1..] == zl[p + reqlen + size..];
    Refielded(zl0, p, es, zl, p + reqlen, PrevSize(reqlen), reqlen);
  }

  /** What is moved, and the end mark behind it, is what stood there before. */
  lemma MovedAll(zl0: seq<byte>, resized: seq<byte>, from: nat)
    requires 4 <= from < |zl0| <= |resized| && zl0[|zl0| - 1] == ZIP_END && resized[|resized| - 1] == ZIP_END
    requires forall i :: 4 <= i < |zl0| - 1 ==> resized[i] == zl0[i]
    ensures resized[from..|zl0| - 1] + resized[|resized| - 1..] == zl0[from..]
  {
    assert resized[from..|zl0| - 1] == zl0[from..|zl0| - 1];
    assert resized[|resized| - 1..] == [ZIP_END] == zl0[|zl0| - 1..];
  }

  /** The entries from p on move behind a gap of reqlen bytes, and the first of them records that length. */
  method OpenGap(zl0: seq<byte>, p: nat, reqlen: nat, ghost es: seq<Entry>) returns (zl: seq<byte>)
    requires Holds(zl0, p, es) && es != [] && reqlen < LIMIT
    requires 0 <= reqlen + PrevSize(reqlen) - es[0].prevSize < LIMIT - |zl0|
    ensures Holds(zl, p + reqlen, Relinked(es, reqlen))
    ensures |zl| == |zl0| + reqlen + PrevSize(reqlen) - es[0].prevSize && forall i :: 8 <= i < p ==> zl[i] == zl0[i]
  {
    hide Stores, Total, AreEntries, Flat, ZipEntry, TailOffset, Field, Relinked;
    ReadFirst(zl0, p, es);
    Extent(zl0, p, es);
    var nextdiff: int := PrevSize(reqlen) - PrevSizeAt(zl0, p);
    zl := MoveEntries(zl0, p, reqlen, nextdiff, es);
    zl := AdjustTail(zl, p, reqlen, nextdiff, es);
  }

  /** The tail offset follows the entries that have moved. */
  method AdjustTail(zl0: seq<byte>, p: nat, reqlen: nat, nextdiff: int, ghost es: seq<Entry>) returns (zl: seq<byte>)
    requires es != [] && AreEntries(es) && reqlen < LIMIT && nextdiff == PrevSize(reqlen) - es[0].prevSize
    requires Stores(zl0, p + reqlen, Relinked(es, reqlen)) && Field(zl0, 0, 4) == |zl0|
    requires Field(zl0, 4, 4) == TailOffset(p, es)
    ensures Holds(zl, p + reqlen, Relinked(es, reqlen)) && |zl| == |zl0|
    ensures forall i :: 8 <= i < |zl| ==> zl[i] == zl0[i]
  {
    hide Stores, Total, AreEntries, Flat, ZipEntry, TailOffset, Field, Relinked, IsEntry, EntryBytes, Readable;
    GapTail(p, reqlen, es);
    RelinkedIs(es, reqlen);
    ghost var relinked := Relinked(es, reqlen);
    Extent(zl0, p + reqlen, relinked);
    zl := MoveTail(zl0, p + reqlen, reqlen, relinked);
    var tail := ZipEntry(zl, p + reqlen);
    if zl[p + reqlen + tail.Raw()] != ZIP_END {
      zl := MoveTail(zl, p + reqlen, nextdiff, relinked);
    }
    OffsetFits(zl, p + reqlen, relinked);
  }

  /** ZIPLIST_INCR_LENGTH: a saturated counter stays as it is. */
  method IncrLength(zl: seq<byte>, incr: int, ghost n: nat) returns (r: seq<byte>)
    requires CountOk(zl, n) && 0 <= n + incr && incr <= 1
    ensures CountOk(r, n + incr) && |r| == |zl|
    ensures Field(r, 0, 4) == Field(zl, 0, 4) && Field(r, 4, 4) == Field(zl, 4, 4)
    ensures forall i :: HEADER <= i < |zl| ==> r[i] == zl[i]
  {
    hide ToLE;
    assert Span(2) == 0x1_0000 && Span(1) == 256;
    var count := Field(zl, 8, 2);
    r := zl;
    if count < UNKNOWN {
      FieldIsSet(zl, 8, 2, (count + incr) % 0x1_0000);
      r := SetField(zl, 8, 2, (count + incr) % 0x1_0000);
      SameField(zl, r, 0, 4);
      SameField(zl, r, 4, 4);
    }
  }

  /** The entries after the cursor once a gap has opened and every link behind it is right again. */
  function Shifted(right: seq<Entry>, reqlen: nat): seq<Entry> { Cascade(Relinked(right, reqlen)) }

  lemma ShiftedFits(right: seq<Entry>, reqlen: nat)
    requires AreEntries(right) && Links(right) && right != [] && reqlen < LIMIT && Total(Shifted(right, reqlen)) < LIMIT
    ensures Links(Relinked(right, reqlen)[1..])
    ensures Total(right) + PrevSize(reqlen) - right[0].prevSize <= Total(Shifted(right, reqlen))
    ensures PrevSize(reqlen) == right[0].prevSize ==> Shifted(right, reqlen) == Relinked(right, reqlen)
    ensures AreEntries(Shifted(right, reqlen)) && Shifted(right, reqlen) != []
  {
    var r := Relinked(right, reqlen);
    assert r[1..] == right[1..];
    CascadeRepairs(r);
    if PrevSize(reqlen) == right[0].prevSize {
      assert |right| > 1 ==> r[1] == right[1];
      CascadeIdle(r);
    }
  }

  lemma NothingShifted(reqlen: nat)
    ensures Shifted([], reqlen) == []
  {
  }

  lemma TailAfter(p: nat, e: Entry, es: seq<Entry>)
    ensures TailOffset(p, [e] + es) == if es == [] then p else TailOffset(p + e.Raw(), es)
  {
    assert ([e] + es)[1..] == es;
  }

  /** Room for an entry at the cursor: what stands behind it has moved, and is linked to it. */
  method MakeRoom(zl0: seq<byte>, p: nat, reqlen: nat, ghost e: Entry, ghost right: seq<Entry>) returns (zl: seq<byte>)
    requires Stores(zl0, p, right) && Links(right) && (right != [] ==> Holds(zl0, p, right))
    requires Field(zl0, 0, 4) == |zl0| && e.Raw() == reqlen < LIMIT
    requires right != [] ==> reqlen + PrevSize(reqlen) >= right[0].prevSize
    requires p + reqlen + Total(Shifted(right, reqlen)) + 1 < LIMIT
    ensures Stores(zl, p + reqlen, Shifted(right, reqlen)) && Field(zl, 0, 4) == |zl|
    ensures Field(zl, 4, 4) == TailOffset(p, [e] + Shifted(right, reqlen))
    ensures forall i :: 8 <= i < p ==> zl[i] == zl0[i]
  {
    hide Stores, Total, AreEntries, Flat, TailOffset, Field, Relinked, Cascade, Links, ZipEntry;
    Extent(zl0, p, right);
    AtEnd(zl0, p, right);
    ghost var tail := Shifted(right, reqlen);
    TailAfter(p, e, tail);
    if zl0[p] != ZIP_END {
      ReadFirst(zl0, p, right);
      ShiftedFits(right, reqlen);
      var nextdiff: int := PrevSize(reqlen) - PrevSizeAt(zl0, p);
      zl := OpenGap(zl0, p, reqlen, right);
      if nextdiff != 0 {
        RelinkedIs(right, reqlen);
        zl := CascadeUpdate(zl, p + reqlen, Relinked(right, reqlen));
      }
    } else {
      NothingShifted(reqlen);
      NoEntries(p);
      zl := Resize(zl0, Field(zl0, 0, 4) + reqlen);
      zl := SetTail(zl, p);
      OnlyEnd(zl, p + reqlen);
    }
  }

  lemma OnlyEnd(zl: seq<byte>, p: nat)
    requires HEADER <= p && |zl| == p + 1 < LIMIT && zl[p] == ZIP_END
    ensures Stores(zl, p, [])
  {
    assert zl[p..] == [ZIP_END];
  }

  /** The three parts of an entry, written one behind the other. */
  method WriteEntry(zl: seq<byte>, p: nat, head: seq<byte>, length: seq<byte>, payload: seq<byte>)
      returns (r: seq<byte>)
    requires HEADER <= p && p + |head| + |length| + |payload| <= |zl|
    ensures |r| == |zl| && r[p..p + |head| + |length| + |payload|] == head + (length + payload)
    ensures forall i :: 0 <= i < |zl| && !(p <= i < p + |head| + |length| + |payload|) ==> r[i] == zl[i]
    ensures Field(r, 0, 4) == Field(zl, 0, 4) && Field(r, 4, 4) == Field(zl, 4, 4)
  {
    hide Field;
    r := Put(zl, p, head);
    r := Put(r, p + |head|, length);
    r := Put(r, p + |head| + |length|, payload);
    SameField(zl, r, 0, 4);
    SameField(zl, r, 4, 4);
  }

  lemma EntryWritten(zl: seq<byte>, left: seq<Entry>, e: Entry, tail: seq<Entry>)
    requires var p := HEADER + Total(left);
             && AreEntries(left) && IsEntry(e) && Stores(zl, p + e.Raw(), tail) && Field(zl, 0, 4) == |zl|
             && zl[HEADER..p] == Flat(left) && zl[p..p + e.Raw()] == EntryBytes(e)
             && Field(zl, 4, 4) == TailOffset(p, [e] + tail)
    ensures Holds(zl, HEADER, left + [e] + tail)
  {
    hide Total, AreEntries, Flat, Stores, Field, TailOffset, EntryBytes;
    var p := HEADER + Total(left);
    OneEntry(e);
    StoresPrepend(zl, p, [e], tail);
    HoldsPrepend(zl, HEADER, left, [e] + tail);
    AppendAssociates(left, [e], tail);
  }

  lemma ItemBytes(s: seq<byte>)
    requires |s| < LIMIT - 5
    ensures match TryEncoding(s)
            case None => Encoded(s) == EncodeLength(0, |s|) + s
            case Some((v, encoding)) => Encoded(s) == EncodeLength(encoding, |s|) + SaveInteger(v, encoding)
  {
  }

  /** What __ziplistInsert may be called for: the new list fits its 32-bit size, and the shorter field of the next
      entry does not free more bytes than the new entry takes. */
  ghost predicate CanInsert(left: seq<Entry>, right: seq<Entry>, s: seq<byte>) {
    && SizeFits(left, right, s)
    && (right != [] ==> NewEntry(left, right, s).Raw() + PrevSize(NewEntry(left, right, s).Raw()) >= right[0].prevSize)
  }

  ghost predicate SizeFits(left: seq<Entry>, right: seq<Entry>, s: seq<byte>) {
    |s| < LIMIT - 5 && HEADER + Total(Inserted(left, right, s)) + 1 < LIMIT
  }

  lemma InsertFits(left: seq<Entry>, right: seq<Entry>, s: seq<byte>)
    requires AreEntries(left + right) && Linked(left + right) && Total(left + right) < LIMIT && SizeFits(left, right, s)
    ensures var e := NewEntry(left, right, s);
            && AreEntries(left) && AreEntries(right) && Links(right) && IsEntry(e)
            && Inserted(left, right, s) == left + [e] + Shifted(right, e.Raw())
            && HEADER + Total(left) + e.Raw() + Total(Shifted(right, e.Raw())) + 1 < LIMIT
            && Linked(Inserted(left, right, s)) && AreEntries(Inserted(left, right, s))
            && Items(Inserted(left, right, s)) == Items(left) + [ItemFor(s)] + Items(right)
            && |Inserted(left, right, s)| == |left + right| + 1
            && e == Entry(PrevSize(e.prevLen), e.prevLen, Encoded(s)) && e.prevLen < LIMIT
            && EntryBytes(e) == PrevEncode(e.prevLen, PrevSize(e.prevLen)) + Encoded(s)
            && e.prevLen == if right != [] then right[0].prevLen else if left == [] then 0 else left[|left| - 1].Raw()
  {
    InsertedItems(left, right, s);
    NewEntryFits(left, right, s);
    hide Items, Flat, Cascade, Relinked, Links;
    var e := NewEntry(left, right, s);
    Concat(left, right);
    Concat(left, [e]);
    Concat(left + [e], Shifted(right, e.Raw()));
    assert Total([e]) == e.Raw() + Total([]);
    assert AreEntries([e]) ==> IsEntry(e);
  }

  /** __ziplistInsert. */
  method Insert(zl0: seq<byte>, p: nat, s: seq<byte>, ghost left: seq<Entry>, ghost right: seq<Entry>)
      returns (zl: seq<byte>)
    requires WellFormed(zl0, left + right) && p == HEADER + Total(left) && CanInsert(left, right, s)
    ensures AreEntries(left) && AreEntries(right)
    ensures WellFormed(zl, Inserted(left, right, s))
    ensures Items(Inserted(left, right, s)) == Items(left) + [ItemFor(s)] + Items(right)
  {
    hide Stores, Total, AreEntries, Flat, TailOffset, Field, Relinked, Cascade, Links, Items, EntryBytes, PrevEncode;
    hide NewEntry, Inserted, Shifted, ItemFor, TryEncoding, EncodeLength, SaveInteger, Encoded, IsEntry;
    Extent(zl0, HEADER, left + right);
    InsertFits(left, right, s);
    ItemBytes(s);
    StoresSplit(zl0, HEADER, left, right);
    if right != [] {
      HoldsSplit(zl0, HEADER, left, right);
    }
    ghost var e := NewEntry(left, right, s);
    var prevlen := PrevLenBefore(zl0, p, left, right);
    var encoding: byte, payload := 0, s;
    match TryEncoding(s) {
      case None =>
      case Some((v, enc)) =>
        encoding := enc;
        payload := SaveInteger(v, enc);
    }
    var head, length := PrevEncode(prevlen, PrevSize(prevlen)), EncodeLength(encoding, |s|);
    var reqlen := |payload| + |head| + |length|;
    zl := MakeRoom(zl0, p, reqlen, e, right);
    Extent(zl, p + reqlen, Shifted(right, reqlen));
    assert zl[HEADER..p] == zl0[HEADER..p];
    SameField(zl0, zl, 8, 2);
    zl := PlaceEntry(zl, p, head, length, payload, left, e, Shifted(right, reqlen), |left + right|);
  }

  method PlaceEntry(room: seq<byte>, p: nat, head: seq<byte>, length: seq<byte>, payload: seq<byte>,
                    ghost left: seq<Entry>, ghost e: Entry, ghost tail: seq<Entry>, ghost n: nat)
      returns (zl: seq<byte>)
    requires AreEntries(left) && IsEntry(e) && p == HEADER + Total(left) && head + (length + payload) == EntryBytes(e)
    requires Stores(room, p + e.Raw(), tail) && Field(room, 0, 4) == |room| && CountOk(room, n)
    requires Field(room, 4, 4) == TailOffset(p, [e] + tail) && room[HEADER..p] == Flat(left)
    ensures Holds(zl, HEADER, left + [e] + tail) && CountOk(zl, n + 1)
  {
    hide Stores, Total, AreEntries, Flat, TailOffset, Field, EntryBytes;
    Extent(room, p + e.Raw(), tail);
    zl := WriteEntry(room, p, head, length, payload);
    StillStores(room, zl, p + e.Raw(), tail);
    assert zl[HEADER..p] == room[HEADER..p];
    EntryWritten(zl, left, e, tail);
    SameField(room, zl, 8, 2);
    ghost var written := zl;
    zl := IncrLength(zl, 1, n);
    Extent(written, HEADER, left + [e] + tail);
    StillStores(written, zl, HEADER, left + [e] + tail);
  }

  /** Why CanInsert asks for the room: __ziplistInsert resizes before it moves. When the next entry's field gives up
      more bytes than the new entry needs, the resize to curlen + reqlen + nextdiff cuts into the list. One byte short,
      what the memmove then reads is the old tail only if the byte overwritten by the end mark held that value already;
      two bytes short, it reads past the buffer. */
  lemma NarrowInsertLosesTail(zl: seq<byte>, p: nat, es: seq<Entry>, reqlen: nat, resized: seq<byte>)
    requires Stores(zl, p, es) && es != [] && es[0].prevSize == 5 && PrevSize(reqlen) == 1 && 2 <= reqlen < 4
    requires |resized| == |zl| + reqlen - 4 && resized[|resized| - 1] == ZIP_END
    requires forall i :: 4 <= i < |resized| - 1 ==> resized[i] == zl[i]
    ensures var from, to := p + 4, |zl| - 1;
            if reqlen == 2 then to > |resized| && zl[from..to] != []
            else to <= |resized| && (resized[from..to] == zl[from..to] <==> zl[to - 1] == ZIP_END)
  {
    hide Stores, AreEntries, Flat, Total, PrevEncode, IsBody;
    AfterField(zl, p, es);
    Extent(zl, p, es);
    BodyNotEmpty(es[0].body);
    if reqlen == 3 {
      var from, to := p + 4, |zl| - 1;
      assert to == |resized| && from < to;
      assert resized[from..to][to - 1 - from] == ZIP_END && zl[from..to][to - 1 - from] == zl[to - 1];
      if zl[to - 1] == ZIP_END {
        assert forall i :: from <= i < to ==> resized[i] == zl[i];
      }
    }
  }

  lemma BodyNotEmpty(b: seq<byte>)
    requires IsBody(b)
    ensures |b| > 0
  {
  }

  // ----- deletion -----

  function Min(a: nat, b: nat): nat { if a < b then a else b }

  /** Walks over up to num entries; index lookup and counting walk the same way. */
  method Skip(zl: seq<byte>, p0: nat, num: nat, ghost es: seq<Entry>) returns (p: nat, skipped: nat)
    requires Stores(zl, p0, es)
    ensures skipped == Min(num, |es|) && p == p0 + Total(es[..skipped]) && Stores(zl, p, es[skipped..])
  {
    hide Stores, Total, AreEntries, Flat, ZipEntry;
    p, skipped := p0, 0;
    WholeSlice(es);
    AtEnd(zl, p, es);
    while zl[p] != ZIP_END && skipped < num
      invariant skipped <= num && skipped <= |es| && p == p0 + Total(es[..skipped])
      invariant Stores(zl, p, es[skipped..]) && p < |zl| && (zl[p] == ZIP_END <==> skipped == |es|)
      decreases |es| - skipped
    {
      ReadFirst(zl, p, es[skipped..]);
      OneMore(es, skipped);
      p := p + ZipEntry(zl, p).Raw();
      skipped := skipped + 1;
      AtEnd(zl, p, es[skipped..]);
    }
  }

  lemma WholeSlice(es: seq<Entry>)
    ensures es[0..] == es && Total(es[..0]) == 0
  {
  }

  lemma OneMore(es: seq<Entry>, k: nat)
    requires k < |es|
    ensures es[k..] != [] && es[k..][0] == es[k] && es[k..][1..] == es[k + 1..]
    ensures Total(es[..k + 1]) == Total(es[..k]) + es[k].Raw()
  {
    assert es[..k + 1] == es[..k] + [es[k]];
    Concat(es[..k], [es[k]]);
    assert Total([es[k]]) == es[k].Raw() + Total([]);
  }

  /** The entries at from move down to p0, and the buffer shrinks behind them. */
  method CloseGap(zl: seq<byte>, p0: nat, from: nat, len: nat, ghost es: seq<Entry>) returns (r: seq<byte>)
    requires Stores(zl, from, es) && HEADER <= p0 <= from && Field(zl, 0, 4) == |zl| && len == |zl| - (from - p0)
    ensures Stores(r, p0, es) && Field(r, 0, 4) == |r| && Field(r, 4, 4) == Field(zl, 4, 4)
    ensures forall i :: 8 <= i < p0 ==> r[i] == zl[i]
  {
    hide Total, AreEntries, Flat, Field, Stores;
    Extent(zl, from, es);
    AtEnd(zl, from, es);
    var n := Field(zl, 0, 4) - from - 1;
    var moved := zl[..p0] + zl[from..from + n] + zl[p0 + n..];
    r := Resize(moved, len);
    assert r[p0..] == zl[from..];
    SameTail(zl, from, r, p0, es);
    SameField(zl, r, 4, 4);
  }

  lemma SameTail(zl: seq<byte>, p: nat, r: seq<byte>, q: nat, es: seq<Entry>)
    requires Stores(zl, p, es) && HEADER <= q <= |r| < LIMIT && zl[p..] == r[q..]
    ensures Stores(r, q, es)
  {
    assert |r| - q == |r[q..]| == |zl| - p;
  }

  /** The tail offset when the first of the entries changes its width towards the front, and what the entries move. */
  lemma GapClosed(p0: nat, p: nat, right: seq<Entry>, len: nat)
    requires right != [] && AreEntries(right) && p0 <= p
    ensures var tail, nextdiff: int := TailOffset(p, right), PrevSize(len) - right[0].prevSize;
            && tail <= p + Total(right)
            && TailOffset(p0, Relinked(right, len)) == tail - (p - p0) + if |right| == 1 then 0 else nextdiff
  {
    assert right == [right[0]] + right[1..];
    TailOffsetAtLeast(p, right);
    TailOffsetFirst(p, p0, right[0], Relinked(right, len)[0], right[1..]);
  }

  /** The bytes between p0 and p go; the entry at p takes over the length recorded at p0, in the narrowest field. */
  method Remove(zl0: seq<byte>, p0: nat, p: nat, prevLen: nat, ghost right: seq<Entry>) returns (zl: seq<byte>)
    requires Holds(zl0, p, right) && right != [] && prevLen < LIMIT
    requires HEADER <= p0 <= p - PrevSize(prevLen) + right[0].prevSize
    requires p0 + Total(Relinked(right, prevLen)) + 1 < LIMIT && p0 < p
    ensures Holds(zl, p0, Relinked(right, prevLen))
    ensures forall i :: 8 <= i < p0 ==> zl[i] == zl0[i]
  {
    hide Total, AreEntries, Flat, Field, Stores, TailOffset, Relinked, PrevEncode, ZipEntry;
    ReadFirst(zl0, p, right);
    Extent(zl0, p, right);
    RelinkedIs(right, prevLen);
    GapClosed(p0, p, right, prevLen);
    ghost var relinked := Relinked(right, prevLen);
    var nextdiff: int := PrevSize(prevLen) - PrevSizeAt(zl0, p);
    var from := p - nextdiff;
    zl := PutBefore(zl0, p, from, prevLen, right);
    zl := MoveTail(zl, from, p0 - p, relinked);
    var tail := ZipEntry(zl, from);
    if zl[from + tail.Raw()] != ZIP_END {
      zl := MoveTail(zl, from, nextdiff, relinked);
    }
    zl := CloseGap(zl, p0, from, Field(zl, 0, 4) - (p - p0) + nextdiff, relinked);
    OffsetFits(zl, p0, relinked);
  }

  method PutBefore(zl0: seq<byte>, p: nat, from: nat, prevLen: nat, ghost right: seq<Entry>) returns (zl: seq<byte>)
    requires Stores(zl0, p, right) && right != [] && prevLen < LIMIT
    requires HEADER <= from == p - (PrevSize(prevLen) - right[0].prevSize)
    ensures Stores(zl, from, Relinked(right, prevLen)) && |zl| == |zl0|
    ensures Field(zl, 0, 4) == Field(zl0, 0, 4) && Field(zl, 4, 4) == Field(zl0, 4, 4)
    ensures forall i :: 8 <= i < from ==> zl[i] == zl0[i]
  {
    hide Total, AreEntries, Flat, Field, Stores, Relinked, PrevEncode;
    Extent(zl0, p, right);
    AfterField(zl0, p, right);
    RelinkedIs(right, prevLen);
    var size := PrevSize(prevLen);
    zl := Put(zl0, from, PrevEncode(prevLen, size));
    assert zl[from + size..] == zl0[p + right[0].prevSize..];
    Refielded(zl0, p, right, zl, from, size, prevLen);
    SameField(zl0, zl, 0, 4);
    SameField(zl0, zl, 4, 4);
  }

  /** Everything from p0 on goes. */
  method CutOff(zl0: seq<byte>, p0: nat, prevLen: nat, ghost left: seq<Entry>, ghost p: nat) returns (zl: seq<byte>)
    requires Stores(zl0, p, []) && HEADER + Total(left) == p0 <= p && AreEntries(left) && Field(zl0, 0, 4) == |zl0|
    requires zl0[HEADER..p0] == Flat(left) && prevLen == if left == [] then 0 else left[|left| - 1].Raw()
    ensures Holds(zl, HEADER, left) && p0 < |zl| && forall i :: 8 <= i < p0 ==> zl[i] == zl0[i]
  {
    hide Total, AreEntries, Flat, Field, Stores, TailOffset;
    Extent(zl0, p, []);
    NoEntries(HEADER);
    LastTail(left);
    zl := SetTail(zl0, p0 - prevLen);
    ghost var tailed := zl;
    zl := Resize(zl, Field(zl, 0, 4) - (|zl0| - 1 - p0));
    SameField(tailed, zl, 4, 4);
    OnlyEnd(zl, p0);
    assert zl[HEADER..p0] == zl0[HEADER..p0];
    StoresPrepend(zl, HEADER, left, []);
    assert left + [] == left;
  }

  lemma LastTail(es: seq<Entry>)
    ensures TailOffset(HEADER, es) == HEADER + Total(es) - if es == [] then 0 else es[|es| - 1].Raw()
  {
    if es != [] {
      TailOffsetIs(HEADER, es);
      OneMore(es, |es| - 1);
      assert es[..|es|] == es;
    }
  }

  /** What a deletion that starts at the first of es leaves behind its start. */
  function Remaining(es: seq<Entry>, deleted: nat): seq<Entry>
    requires deleted <= |es|
  {
    if deleted == 0 then es else Shifted(es[deleted..], es[0].prevLen)
  }

  lemma DeleteFits(left: seq<Entry>, es: seq<Entry>, deleted: nat)
    requires deleted <= |es| && AreEntries(left + es) && Linked(left + es) && Total(left + es) < LIMIT
    requires HEADER + Total(left + Remaining(es, deleted)) + 1 < LIMIT
    ensures AreEntries(left) && AreEntries(es[deleted..]) && Links(es[deleted..])
    ensures left + Remaining(es, deleted) == Deleted(left, es[..deleted], es[deleted..])
    ensures var r := left + Remaining(es, deleted);
            && Linked(r) && AreEntries(r) && Items(r) == Items(left) + Items(es[deleted..])
            && |r| == |left + es| - deleted && Total(r) == Total(left) + Total(Remaining(es, deleted))
    ensures es != [] ==> es[0].prevLen == if left == [] then 0 else left[|left| - 1].Raw()
    ensures es != [] ==> IsEntry(es[0])
  {
    hide Items, Flat, Total, Links, AreEntries, Cascade, Relinked;
    var middle, right := es[..deleted], es[deleted..];
    assert es == middle + right;
    Concat(left, es);
    Concat(middle, right);
    if es != [] {
      FlatFirst(es);
    }
    DeletedItems(left, middle, right);
    assert es != [] && left == [] ==> left + es == es;
    Concat(left, Remaining(es, deleted));
  }

  /** The deleted bytes make room for the field that the next entry gets. */
  lemma DeletedRoom(es: seq<Entry>, deleted: nat)
    requires 0 < deleted <= |es| && AreEntries(es)
    ensures Total(es[..deleted]) > PrevSize(es[0].prevLen)
  {
    FlatFirst(es);
    assert es[..deleted][0] == es[0];
  }

  /** The part of __ziplistDelete behind its loop: the bytes from p0 to p go. */
  method Excise(zl0: seq<byte>, p0: nat, p: nat, prevLen: nat, deleted: nat,
                ghost left: seq<Entry>, ghost right: seq<Entry>, ghost n: nat) returns (zl: seq<byte>)
    requires AreEntries(left) && HEADER + Total(left) == p0 <= p - PrevSize(prevLen)
    requires p < |zl0| && zl0[HEADER..p0] == Flat(left)
    requires Stores(zl0, p, right) && (right != [] ==> Holds(zl0, p, right)) && Links(right)
    requires Field(zl0, 0, 4) == |zl0| && CountOk(zl0, n) && deleted <= n
    requires prevLen == if left == [] then 0 else left[|left| - 1].Raw()
    requires p0 + Total(Shifted(right, prevLen)) + 1 < LIMIT && prevLen < LIMIT
    ensures Holds(zl, HEADER, left + Shifted(right, prevLen)) && CountOk(zl, n - deleted)
  {
    hide Total, AreEntries, Flat, Field, Stores, TailOffset, Links, Items, ZipEntry, Relinked, Cascade;
    Extent(zl0, p, right);
    AtEnd(zl0, p, right);
    ghost var relinked := Relinked(right, prevLen);
    var nextdiff: int := 0;
    if zl0[p] != ZIP_END {
      ReadFirst(zl0, p, right);
      ShiftedFits(right, prevLen);
      RelinkedIs(right, prevLen);
      RelinkedTotal(right, prevLen);
      nextdiff := PrevSize(prevLen) - PrevSizeAt(zl0, p);
      zl := Remove(zl0, p0, p, prevLen, right);
      Extent(zl, p0, relinked);
    } else {
      zl := CutOff(zl0, p0, prevLen, left, p);
      Extent(zl, HEADER, left);
    }
    SameField(zl0, zl, 8, 2);
    ghost var cut := zl;
    zl := IncrLength(zl, -(deleted as int), n);
    if right != [] {
      StillStores(cut, zl, p0, relinked);
    } else {
      StillStores(cut, zl, HEADER, left);
      NothingShifted(prevLen);
      assert left + [] == left;
    }
    assert zl[HEADER..p0] == zl0[HEADER..p0];
    ghost var counted := zl;
    if nextdiff != 0 {
      zl := CascadeUpdate(zl, p0, relinked);
      Extent(zl, p0, Shifted(right, prevLen));
      assert zl[HEADER..p0] == counted[HEADER..p0];
      SameField(counted, zl, 8, 2);
    }
    if right != [] {
      HoldsPrepend(zl, HEADER, left, Shifted(right, prevLen));
    }
  }

  lemma RelinkedTotal(es: seq<Entry>, len: nat)
    requires es != []
    ensures Total(Relinked(es, len)) == Total(es) + PrevSize(len) - es[0].prevSize
  {
    assert Relinked(es, len)[1..] == es[1..];
  }

  /** __ziplistDelete. */
  method Delete(zl0: seq<byte>, p0: nat, num: nat, ghost left: seq<Entry>, ghost es: seq<Entry>) returns (zl: seq<byte>)
    requires WellFormed(zl0, left + es) && p0 == HEADER + Total(left) && es != []
    requires HEADER + Total(left + Remaining(es, Min(num, |es|))) + 1 < LIMIT
    ensures WellFormed(zl, left + Remaining(es, Min(num, |es|)))
    ensures AreEntries(left) && AreEntries(es[Min(num, |es|)..])
    ensures Items(left + Remaining(es, Min(num, |es|))) == Items(left) + Items(es[Min(num, |es|)..])
  {
    hide Total, AreEntries, Flat, Field, Stores, TailOffset, Shifted, Links, Items, ZipEntry, Relinked;
    Extent(zl0, HEADER, left + es);
    StoresSplit(zl0, HEADER, left, es);
    Extent(zl0, p0, es);
    ReadFirst(zl0, p0, es);
    DeleteFits(left, es, Min(num, |es|));
    var first := ZipEntry(zl0, p0);
    var p, deleted := Skip(zl0, p0, num, es);
    var totlen := p - p0;
    zl := zl0;
    if totlen > 0 {
      WholeSlice(es);
      DeletedRoom(es, deleted);
      Extent(zl0, p, es[deleted..]);
      if deleted < |es| {
        HoldsAfter(zl0, left, es, deleted);
      }
      zl := Excise(zl0, p0, p, first.prevLen, deleted, left, es[deleted..], |left + es|);
    } else {
      NoneDeleted(es, deleted);
    }
  }

  lemma HoldsAfter(zl: seq<byte>, left: seq<Entry>, es: seq<Entry>, k: nat)
    requires Holds(zl, HEADER, left + es) && k < |es|
    ensures Holds(zl, HEADER + Total(left) + Total(es[..k]), es[k..])
  {
    hide Total, AreEntries, Flat, Field, Stores, TailOffset;
    HoldsSplit(zl, HEADER, left, es);
    assert es == es[..k] + es[k..];
    HoldsSplit(zl, HEADER + Total(left), es[..k], es[k..]);
  }

  lemma NoneDeleted(es: seq<Entry>, deleted: nat)
    requires deleted <= |es| && AreEntries(es) && Total(es[..deleted]) == 0
    ensures deleted == 0
  {
  }

  // ----- cursors -----

  /** Where entry k begins; for k == |es|, where the end mark stands. */
  function At(es: seq<Entry>, k: nat): (p: nat)
    requires k <= |es|
    ensures p >= HEADER
  {
    HEADER + Total(es[..k])
  }

  lemma Cursor(zl: seq<byte>, es: seq<Entry>, k: nat)
    requires Holds(zl, HEADER, es) && k <= |es|
    ensures Stores(zl, At(es, k), es[k..])
    ensures At(es, k) < |zl| && (zl[At(es, k)] == ZIP_END <==> k == |es|)
    ensures k < |es| ==> es[k..][0] == es[k] && es[k..][1..] == es[k + 1..] && At(es, k + 1) == At(es, k) + es[k].Raw()
  {
    hide Stores, Total, AreEntries, Flat, TailOffset, Field;
    assert es == es[..k] + es[k..];
    StoresSplit(zl, HEADER, es[..k], es[k..]);
    AtEnd(zl, At(es, k), es[k..]);
    if k < |es| {
      OneMore(es, k);
    }
  }

  lemma {:induction false} LinkAt(es: seq<Entry>, k: nat)
    requires AreEntries(es) && Linked(es) && k < |es|
    ensures IsEntry(es[k]) && es[k].prevLen == if k == 0 then 0 else es[k - 1].Raw()
  {
    LinksAt(es, k);
  }

  lemma {:induction false} LinksAt(es: seq<Entry>, k: nat)
    requires AreEntries(es) && Links(es) && k < |es|
    ensures IsEntry(es[k]) && (k > 0 ==> es[k].prevLen == es[k - 1].Raw())
    decreases k
  {
    if k > 1 {
      LinksAt(es[1..], k - 1);
    }
  }

  lemma TailCursor(zl: seq<byte>, es: seq<Entry>)
    requires Holds(zl, HEADER, es)
    ensures Field(zl, 4, 4) == if es == [] then At(es, 0) else At(es, |es| - 1)
  {
    if es != [] {
      TailOffsetIs(HEADER, es);
    }
  }

  /** ziplistIndex; the magnitude of the most negative int has no int of its own. */
  method Index(zl: seq<byte>, index: int, ghost es: seq<Entry>) returns (r: Option<nat>)
    requires WellFormed(zl, es) && -0x8000_0000 <= index < 0x8000_0000
    ensures var n := |es|; r == if 0 <= index < n then Some(At(es, index))
                                else if -n <= index < 0 then Some(At(es, n + index)) else None
  {
    hide Stores, Total, AreEntries, Flat, TailOffset, Field, Links, ZipEntry, At;
    var i: int, p: nat := index, HEADER;
    ghost var n, k := |es|, 0;
    FirstCursor(es);
    Cursor(zl, es, 0);
    if index < 0 {
      i := ToInt(ToInt(-index) - 1);
      p := Field(zl, 4, 4);
      TailCursor(zl, es);
      if n > 0 {
        k := n - 1;
        Cursor(zl, es, k);
      }
      if zl[p] != ZIP_END {
        ReadFirst(zl, p, es[k..]);
        Behind(zl, es, k);
        while ZipEntry(zl, p).prevLen > 0 && i != 0
          invariant 0 <= i && k < n && p == At(es, k) && n - 1 - k + i == -index - 1
          invariant Readable(zl, p) && zl[p] != ZIP_END && ZipEntry(zl, p).prevLen == es[k].prevLen
          invariant es[k].prevLen == if k == 0 then 0 else At(es, k) - At(es, k - 1)
          invariant es[k].prevLen == 0 <==> k == 0
          decreases i
        {
          p, k, i := p - ZipEntry(zl, p).prevLen, k - 1, i - 1;
          Cursor(zl, es, k);
          ReadFirst(zl, p, es[k..]);
          Behind(zl, es, k);
        }
      }
    } else {
      while zl[p] != ZIP_END && i != 0
        invariant 0 <= i && k <= n && p == At(es, k) && k + i == index
        invariant p < |zl| && (zl[p] == ZIP_END <==> k == n)
        decreases i
      {
        Cursor(zl, es, k);
        ReadFirst(zl, p, es[k..]);
        p, k, i := p + ZipEntry(zl, p).Raw(), k + 1, i - 1;
        Cursor(zl, es, k);
      }
    }
    r := if zl[p] == ZIP_END || i > 0 then None else Some(p);
  }

  lemma FirstCursor(es: seq<Entry>)
    ensures At(es, 0) == HEADER
  {
  }

  /** The length recorded in entry k leads back to entry k - 1. */
  lemma Behind(zl: seq<byte>, es: seq<Entry>, k: nat)
    requires Holds(zl, HEADER, es) && Linked(es) && k < |es|
    ensures es[k].prevLen == if k == 0 then 0 else At(es, k) - At(es, k - 1)
    ensures es[k].prevLen == 0 <==> k == 0
  {
    LinkAt(es, k);
    if k > 0 {
      LinkAt(es, k - 1);
      OneMore(es, k - 1);
    }
  }

  /** ziplistNext. */
  method Next(zl: seq<byte>, p: nat, ghost es: seq<Entry>, ghost k: nat) returns (r: Option<nat>)
    requires WellFormed(zl, es) && k <= |es| && p == At(es, k)
    ensures r == if k + 1 < |es| then Some(At(es, k + 1)) else None
  {
    hide Stores, Total, AreEntries, Flat, TailOffset, Field, Links, ZipEntry, At;
    Cursor(zl, es, k);
    if zl[p] == ZIP_END { return None; }
    ReadFirst(zl, p, es[k..]);
    Cursor(zl, es, k + 1);
    var q := p + ZipEntry(zl, p).Raw();
    if zl[q] == ZIP_END { return None; }
    return Some(q);
  }

  /** ziplistPrev: from the end mark it leads to the last entry. */
  method Prev(zl: seq<byte>, p: nat, ghost es: seq<Entry>, ghost k: nat) returns (r: Option<nat>)
    requires WellFormed(zl, es) && k <= |es| && p == At(es, k)
    ensures r == if k > 0 then Some(At(es, k - 1)) else None
  {
    hide Stores, Total, AreEntries, Flat, TailOffset, Field, Links, ZipEntry, At;
    Cursor(zl, es, k);
    FirstCursor(es);
    if zl[p] == ZIP_END {
      TailCursor(zl, es);
      var tail := Field(zl, 4, 4);
      Cursor(zl, es, if k == 0 then 0 else k - 1);
      return if zl[tail] == ZIP_END then None else Some(tail);
    }
    ReadFirst(zl, p, es[k..]);
    Behind(zl, es, k);
    if p == HEADER { return None; }
    return Some(p - ZipEntry(zl, p).prevLen);
  }

  /** ziplistGet. */
  method Get(zl: seq<byte>, p: Option<nat>, ghost es: seq<Entry>, ghost k: nat) returns (r: Option<Item>)
    requires WellFormed(zl, es) && AreEntries(es) && k <= |es| && (p.Some? ==> p.value == At(es, k))
    ensures r == if p.Some? && k < |es| then Some(Items(es)[k]) else None
  {
    hide Stores, Total, AreEntries, Flat, TailOffset, Field, Links, Items, At, ZipEntry, LoadInteger, IsBody;
    if p == None { return None; }
    var q := p.value;
    Cursor(zl, es, k);
    if zl[q] == ZIP_END { return None; }
    ReadFirst(zl, q, es[k..]);
    ItemAt(es, k);
    var entry := ZipEntry(zl, q);
    var payload := zl[q + entry.prevSize + entry.lenSize..q + entry.Raw()];
    ghost var body := es[k].body;
    SliceOfSlice(zl, q + entry.prevSize, q + entry.Raw(), entry.lenSize, |body|);
    assert payload == body[entry.lenSize..];
    if entry.encoding < 192 {
      return Some(Str(payload));
    } else {
      return Some(Int(LoadInteger(payload, entry.encoding)));
    }
  }

  lemma {:induction false} ItemAt(es: seq<Entry>, k: nat)
    requires AreEntries(es) && k < |es|
    ensures IsEntry(es[k]) && IsBody(es[k].body) && Items(es)[k] == ItemOf(es[k].body)
    ensures es[k].body[0] >= 192 ==> IsIntEncoding(es[k].body[0]) && LenSize(es[k].body[0]) == 1
    ensures |es[k].body| >= 1 + IntSize(es[k].body[0]) || es[k].body[0] < 192
  {
    if k > 0 {
      ItemAt(es[1..], k - 1);
    }
  }

  lemma CountBound(zl: seq<byte>)
    requires |zl| >= HEADER
    ensures Field(zl, 8, 2) < 0x1_0000
  {
    assert Span(2) == 0x1_0000;
  }

  /** ziplistLen: a saturated counter makes it count, and store the count if it fits again. */
  method Len(zl0: seq<byte>, ghost es: seq<Entry>) returns (len: nat, zl: seq<byte>)
    requires WellFormed(zl0, es)
    ensures len == |es| && WellFormed(zl, es) && Field(zl, 8, 2) == if len < 0xFFFF then len else 0xFFFF
  {
    hide Stores, Total, AreEntries, Flat, TailOffset, Field, Links, ZipEntry, At, SetField;
    assert Span(2) == 0x1_0000 && Span(1) == 256;
    zl := zl0;
    CountBound(zl);
    if Field(zl, 8, 2) < UNKNOWN {
      return Field(zl, 8, 2), zl;
    }
    len := 0;
    var p: nat := HEADER;
    FirstCursor(es);
    Cursor(zl, es, 0);
    while zl[p] != ZIP_END
      invariant len <= |es| && p == At(es, len) && p < |zl| && (zl[p] == ZIP_END <==> len == |es|)
      decreases |es| - len
    {
      Cursor(zl, es, len);
      ReadFirst(zl, p, es[len..]);
      p := p + ZipEntry(zl, p).Raw();
      len := len + 1;
      Cursor(zl, es, len);
    }
    if len < UNKNOWN {
      Extent(zl, HEADER, es);
      FieldIsSet(zl, 8, 2, len);
      zl := SetField(zl, 8, 2, len);
      SameField(zl0, zl, 0, 4);
      SameField(zl0, zl, 4, 4);
      StillStores(zl0, zl, HEADER, es);
    }
  }

  /** ziplistNew. */
  method New() returns (zl: seq<byte>)
    ensures WellFormed(zl, [])
  {
    zl := ToLE(HEADER + 1, 4) + ToLE(HEADER, 4) + ToLE(0, 2) + [ZIP_END];
    assert Span(4) == LIMIT && Span(2) == 0x1_0000;
    FromToLE(HEADER + 1, 4);
    FromToLE(HEADER, 4);
    FromToLE(0, 2);
    hide ToLE, FromLE;
    assert zl[0..4] == ToLE(HEADER + 1, 4) && zl[4..8] == ToLE(HEADER, 4) && zl[8..10] == ToLE(0, 2);
    OnlyEnd(zl, HEADER);
  }

  /** ziplistPush. */
  method Push(zl0: seq<byte>, s: seq<byte>, atHead: bool, ghost es: seq<Entry>) returns (zl: seq<byte>)
    requires WellFormed(zl0, es) && AreEntries(es) && (if atHead then CanInsert([], es, s) else CanInsert(es, [], s))
    ensures WellFormed(zl, if atHead then Inserted([], es, s) else Inserted(es, [], s))
    ensures Items(if atHead then Inserted([], es, s) else Inserted(es, [], s))
            == if atHead then [ItemFor(s)] + Items(es) else Items(es) + [ItemFor(s)]
  {
    hide Total, AreEntries, Flat, TailOffset, Field, Links, Inserted, ItemFor, Stores, Items;
    NothingAdded(es);
    NoItems(if atHead then Items(es) else [], ItemFor(s), if atHead then [] else Items(es));
    NoEntries(HEADER);
    Extent(zl0, HEADER, es);
    if atHead {
      zl := Insert(zl0, HEADER, s, [], es);
    } else {
      zl := Insert(zl0, Field(zl0, 0, 4) - 1, s, es, []);
    }
  }

  /** A 64-bit integer that is pushed in decimal is what is then found at that end. */
  method PushThenGet(zl0: seq<byte>, v: int, atHead: bool, ghost es: seq<Entry>)
      returns (zl: seq<byte>, r: Option<Item>)
    requires -0x8000_0000_0000_0000 <= v <= 0x7FFF_FFFF_FFFF_FFFF && WellFormed(zl0, es) && AreEntries(es)
    requires if atHead then CanInsert([], es, Decimal(v)) else CanInsert(es, [], Decimal(v))
    ensures r == Some(Int(v))
  {
    hide Total, AreEntries, Flat, TailOffset, Field, Links, Inserted, ItemFor, Stores, Items, Decimal, At;
    DecimalItem(v);
    zl := Push(zl0, Decimal(v), atHead, es);
    ghost var all := if atHead then Inserted([], es, Decimal(v)) else Inserted(es, [], Decimal(v));
    Extent(zl, HEADER, all);
    var p := Index(zl, if atHead then 0 else -1, all);
    r := Get(zl, p, all, if atHead then 0 else |all| - 1);
  }

  lemma NothingAdded(es: seq<Entry>)
    ensures [] + es == es && es + [] == es
  {
  }

  lemma NoItems(behind: seq<Item>, item: Item, before: seq<Item>)
    ensures Items([]) == [] && [] + [item] + behind == [item] + behind && before + [item] + [] == before + [item]
  {
  }
}
