/** What __ziplistInsert of QedisCore/redisZipList.c does outside its domain: the next entry has a field of five bytes,
    and the new entry takes only three. The buffer is resized before the entries are moved, to one byte less than it
    has, and the end mark is written over the last byte of the last entry before that byte is moved. */
module ZiplistNarrow {
  import opened Bytes
  import opened Options
  import opened Integers
  import opened ZiplistFormat
  import opened Ziplist

  /** The last byte of a body has become an end mark. */
  function ClippedBody(b: seq<byte>): seq<byte> { if b == [] then b else b[..|b| - 1] + [ZIP_END] }

  function ClippedEntry(e: Entry): Entry { e.(body := ClippedBody(e.body)) }

  /** The last byte of the last entry has become an end mark. */
  function Clipped(es: seq<Entry>): seq<Entry> {
    if es == [] then [] else es[..|es| - 1] + [ClippedEntry(es[|es| - 1])]
  }

  lemma ClippedIs(es: seq<Entry>)
    requires es != []
    ensures es == es[..|es| - 1] + [es[|es| - 1]] && Clipped(es) == es[..|es| - 1] + [ClippedEntry(es[|es| - 1])]
    ensures ClippedEntry(es[|es| - 1]).Raw() == es[|es| - 1].Raw()
    ensures Clipped(es)[0].prevSize == es[0].prevSize && Clipped(es)[0].prevLen == es[0].prevLen
  {
  }

  lemma ClippedBytes(e: Entry)
    requires IsEntry(e) && IsEntry(ClippedEntry(e))
    ensures EntryBytes(ClippedEntry(e)) == ClippedBody(EntryBytes(e))
  {
    hide PrevEncode;
    var f, b := PrevBytes(e), e.body;
    assert (f + b)[..|f + b| - 1] == f + b[..|b| - 1];
  }

  /** The buffer whose last byte but one is overwritten holds the clipped entries. */
  lemma ClippedStores(zl: seq<byte>, p: nat, es: seq<Entry>, r: seq<byte>)
    requires Stores(zl, p, es) && es != [] && AreEntries(Clipped(es)) && r == zl[|zl| - 2 := ZIP_END]
    ensures Stores(r, p, Clipped(es)) && p + 2 < |zl|
  {
    hide Stores, AreEntries, Flat, Total, EntryBytes, Clipped, Items, Links;
    var front, last := es[..|es| - 1], es[|es| - 1];
    ClippedIs(es);
    Concat(front, [ClippedEntry(last)]);
    SplitEntries(zl, p, front, last);
    SingleEntry(ClippedEntry(last));
    ClippedBytes(last);
    var q := p + Total(front);
    assert r[p..q] == zl[p..q];
    assert r[q..] == ClippedBody(EntryBytes(last)) + [ZIP_END];
    OneStored(r, q, ClippedEntry(last));
    StoresPrepend(r, p, front, [ClippedEntry(last)]);
  }

  lemma SingleEntry(e: Entry)
    requires AreEntries([e])
    ensures IsEntry(e)
  {
  }

  lemma SplitEntries(zl: seq<byte>, p: nat, front: seq<Entry>, last: Entry)
    requires Stores(zl, p, front + [last])
    ensures AreEntries(front) && IsEntry(last) && HEADER <= p && p + Total(front) + last.Raw() + 1 == |zl| < LIMIT
    ensures zl[p..p + Total(front)] == Flat(front) && zl[p + Total(front)..] == EntryBytes(last) + [ZIP_END]
  {
    hide Flat, Total, EntryBytes, Stores, AreEntries, Items, Links;
    StoresSplit(zl, p, front, [last]);
    var q := p + Total(front);
    Extent(zl, p, front + [last]);
    Extent(zl, q, [last]);
    FirstEntry(zl, q, [last]);
    OneEntry(last);
    AtEnd(zl, q, [last]);
    assert zl[q..] == zl[q..q + last.Raw()] + [zl[|zl| - 1]];
  }

  lemma OneStored(zl: seq<byte>, p: nat, e: Entry)
    requires IsEntry(e) && HEADER <= p && |zl| == p + e.Raw() + 1 < LIMIT && zl[p..] == EntryBytes(e) + [ZIP_END]
    ensures Stores(zl, p, [e])
  {
    OneEntry(e);
  }

  lemma {:induction false} ClippedTail(p: nat, es: seq<Entry>)
    requires es != []
    ensures TailOffset(p, Clipped(es)) == TailOffset(p, es)
  {
    hide TailOffset, Clipped, Total;
    ClippedIs(es);
    var front, last := es[..|es| - 1], es[|es| - 1];
    TailOffsetConcat(p, front, [last]);
    TailOffsetConcat(p, front, [ClippedEntry(last)]);
    LastIsTail(p + Total(front), last);
    LastIsTail(p + Total(front), ClippedEntry(last));
  }

  lemma LastIsTail(p: nat, e: Entry)
    ensures TailOffset(p, [e]) == p
  {
  }

  lemma MovedByOne(zl0: seq<byte>, resized: seq<byte>, zl: seq<byte>, p: nat)
    requires p + 6 <= |zl0| && zl0[|zl0| - 1] == ZIP_END
    requires |zl| == |resized| == |zl0| - 1 && resized[|resized| - 1] == ZIP_END
    requires forall i :: 4 <= i < |resized| - 1 ==> resized[i] == zl0[i]
    requires zl[p + 4..] == resized[p + 5..|zl0| - 1] + resized[|zl0| - 2..]
    ensures p + 6 < |zl0| ==> var whole := zl[|zl| - 2 := zl0[|zl0| - 2]];
                              whole[p + 4..] == zl0[p + 5..] && zl == whole[|zl| - 2 := ZIP_END]
    ensures p + 6 < |zl0| ==> forall i :: 0 <= i < p + 4 ==> zl[|zl| - 2 := zl0[|zl0| - 2]][i] == zl[i]
  {
    if p + 6 < |zl0| {
      var n := |zl| - 2;
      assert zl[n] == zl[p + 4..][n - p - 4];
      assert zl[n + 1] == zl[p + 4..][n + 1 - p - 4];
    }
  }

  /** A body without payload does not stand the loss of its last byte, which is none of an end mark's value. */
  lemma NoPayload(b: seq<byte>)
    requires IsBody(b) && !IsBody(ClippedBody(b))
    ensures |b| == LenSize(b[0]) && b[|b| - 1] != ZIP_END
  {
    if |b| > LenSize(b[0]) {
      HasPayload(b);
    }
  }

  lemma HasPayload(b: seq<byte>)
    requires IsBody(b) && |b| > LenSize(b[0])
    ensures IsBody(ClippedBody(b))
  {
    var c := ClippedBody(b);
    assert c[0] == b[0];
    if 128 <= b[0] < 192 {
      assert c[1..5] == b[1..5];
    }
  }

  /** With such a last entry there is no list at all in the buffer that the memmove leaves. */
  lemma {:induction false} NoList(whole: seq<byte>, zl: seq<byte>, p: nat, es: seq<Entry>, fs: seq<Entry>)
    requires Stores(whole, p, es) && es != [] && !IsBody(ClippedBody(es[|es| - 1].body))
    requires zl == whole[|whole| - 2 := ZIP_END]
    ensures !Stores(zl, p, fs)
    decreases |es|
  {
    hide Stores, AreEntries, Flat, Total, EntryBytes, ClippedBody, ZipEntry;
    Extent(whole, p, es);
    FirstEntry(whole, p, es);
    if |es| == 1 {
      assert es == [es[0]];
      OneEntry(es[0]);
      NoEntryLeft(whole, zl, p, es[0], fs);
    } else if Stores(zl, p, fs) {
      SameFirst(whole, zl, p, es, fs);
      NoList(whole, zl, p + es[0].Raw(), es[1..], fs[1..]);
    }
  }

  /** The first of two entries or more is read as it was. */
  lemma SameFirst(whole: seq<byte>, zl: seq<byte>, p: nat, es: seq<Entry>, fs: seq<Entry>)
    requires Stores(whole, p, es) && |es| > 1 && Stores(zl, p, fs)
    requires |zl| == |whole| && forall i :: 0 <= i < |zl| && i != |zl| - 2 ==> zl[i] == whole[i]
    ensures fs != [] && fs[0].Raw() == es[0].Raw()
    ensures Stores(whole, p + es[0].Raw(), es[1..]) && Stores(zl, p + es[0].Raw(), fs[1..])
  {
    hide Stores, AreEntries, Flat, Total, EntryBytes, ZipEntry, Readable;
    FirstEntry(whole, p, es);
    FirstEntry(whole, p + es[0].Raw(), es[1..]);
    var q := p + es[0].Raw();
    assert zl[p..q] == whole[p..q];
    ReadEntry(zl, p, es[0]);
    ReadEntry(whole, p, es[0]);
    AtEnd(zl, p, fs);
    ReadFirst(zl, p, fs);
    ReadFirst(whole, p, es);
    assert ZipEntry(zl, p).Raw() == ZipEntry(whole, p).Raw();
  }

  /** The last entry is no entry any more. */
  lemma NoEntryLeft(whole: seq<byte>, zl: seq<byte>, p: nat, e: Entry, fs: seq<Entry>)
    requires IsEntry(e) && !IsBody(ClippedBody(e.body)) && |whole| == p + e.Raw() + 1
    requires whole[p..p + e.Raw()] == EntryBytes(e) && zl == whole[|whole| - 2 := ZIP_END]
    ensures !Stores(zl, p, fs)
  {
    hide Stores, AreEntries, Flat, Total, ZipEntry, EntryBytes, IsBody, ClippedBody;
    NoPayload(e.body);
    EntryParts(whole, p, e);
    if Stores(zl, p, fs) {
      AtEnd(zl, p, fs);
      ReadFirst(zl, p, fs);
      var q, b := p + e.prevSize, fs[0].body;
      assert b == zl[q..q + |b|] && q + |b| < |zl|;
      assert whole[q..q + |e.body|] == e.body;
      BrokenBody(e.body, b);
    }
  }

  lemma EntryParts(whole: seq<byte>, p: nat, e: Entry)
    requires IsEntry(e) && p + e.Raw() <= |whole| && whole[p..p + e.Raw()] == EntryBytes(e)
    ensures |e.body| > 0 && whole[p + e.prevSize..p + e.prevSize + |e.body|] == e.body
    ensures whole[p] != ZIP_END && PrevSizeAt(whole, p) == e.prevSize
  {
    hide Flat, PrevEncode;
    ReadEntry(whole, p, e);
    assert whole[p] == EntryBytes(e)[0] == PrevBytes(e)[0];
  }

  lemma BrokenBody(b: seq<byte>, c: seq<byte>)
    requires IsBody(b) && |b| == LenSize(b[0]) && |c| <= |b|
    requires forall i :: 0 <= i < |c| ==> c[i] == if i == |b| - 1 then ZIP_END else b[i]
    ensures !IsBody(c)
  {
    if |c| == 5 {
      assert c[1..5][3] == c[4];
    }
  }

  lemma ClippedRelinked(es: seq<Entry>)
    requires es != []
    ensures Clipped(Relinked(es, 3)) == Relinked(Clipped(es), 3)
    ensures Relinked(es, 3)[|es| - 1].body == es[|es| - 1].body && |Relinked(es, 3)| == |es|
    ensures Clipped(Relinked(es, 3)) == Relinked(es, 3) <==> Clipped(es) == es
  {
    hide ClippedBody;
    RelinkedIs(es, 3);
    OnlyLastClipped(es);
    OnlyLastClipped(Relinked(es, 3));
    if |es| > 1 {
      assert Relinked(es, 3)[..|es| - 1] == [Relinked(es, 3)[0]] + es[1..|es| - 1];
      assert Clipped(es)[1..] == es[1..|es| - 1] + [ClippedEntry(es[|es| - 1])];
    }
  }

  lemma OnlyLastClipped(es: seq<Entry>)
    requires es != []
    ensures Clipped(es) == es <==> ClippedBody(es[|es| - 1].body) == es[|es| - 1].body
  {
    hide ClippedBody;
    assert Clipped(es)[|es| - 1].body == ClippedBody(es[|es| - 1].body);
  }

  lemma ClippedEntries(es: seq<Entry>)
    requires AreEntries(es) && es != []
    ensures AreEntries(Clipped(es)) <==> IsBody(ClippedBody(es[|es| - 1].body))
    ensures es[|es| - 1].body != []
  {
    hide Items, Flat, Links, Total;
    var front, last := es[..|es| - 1], es[|es| - 1];
    ClippedIs(es);
    Concat(front, [last]);
    Concat(front, [ClippedEntry(last)]);
    SingleEntry(last);
    OneIsEntry(ClippedEntry(last));
  }

  lemma OneIsEntry(e: Entry)
    ensures AreEntries([e]) <==> IsEntry(e)
  {
  }

  /** No list is stored there. */
  ghost predicate StoresNothing(zl: seq<byte>, p: nat) { forall fs :: !Stores(zl, p, fs) }

  /** What the memmove leaves. */
  lemma NarrowMoved(whole: seq<byte>, zl: seq<byte>, p: nat, es: seq<Entry>)
    requires Stores(whole, p, es) && es != [] && zl == whole[|whole| - 2 := ZIP_END]
    ensures Stores(zl, p, es) <==> Clipped(es) == es
    ensures if AreEntries(Clipped(es)) then Stores(zl, p, Clipped(es)) else StoresNothing(zl, p)
  {
    hide Stores, AreEntries, Flat, Total, Items, Links, EntryBytes, Clipped;
    Extent(whole, p, es);
    ClippedEntries(es);
    if AreEntries(Clipped(es)) {
      ClippedStores(whole, p, es, zl);
      if Stores(zl, p, es) {
        Unambiguous(zl, p, es, Clipped(es));
      }
    } else {
      forall fs ensures !Stores(zl, p, fs) {
        NoList(whole, zl, p, es, fs);
      }
    }
  }

  /** The memmove of an insertion that takes one byte out of the buffer. It leaves the entries there if and only if the
      last byte of the last one had the value of an end mark; otherwise that entry is clipped, or, when it had no
      payload, what is left is no list. */
  method MoveNarrow(zl0: seq<byte>, p: nat, ghost es: seq<Entry>) returns (zl: seq<byte>)
    requires Holds(zl0, p, es) && es != [] && es[0].prevSize == 5
    ensures |zl| == |zl0| - 1 && Field(zl, 0, 4) == |zl| && Field(zl, 4, 4) == TailOffset(p, Clipped(es))
    ensures Stores(zl, p + 3, Relinked(es, 3)) <==> Clipped(es) == es
    ensures if AreEntries(Clipped(es)) then Stores(zl, p + 3, Relinked(Clipped(es), 3))
            else StoresNothing(zl, p + 3)
    ensures forall i :: 8 <= i < p ==> zl[i] == zl0[i]
  {
    hide Stores, Total, AreEntries, Flat, TailOffset, Field, Relinked, Clipped, EntryBytes, PrevBytes, IsBody;
    Extent(zl0, p, es);
    AfterField(zl0, p, es);
    AtEnd(zl0, p, es);
    ClippedTail(p, es);
    var curlen := Field(zl0, 0, 4);
    var resized := Resize(zl0, curlen + 3 - 4);
    SameField(zl0, resized, 4, 4);
    zl := MoveAndPut(resized, p + 3, p + 4, |zl0| - p - 5, p + 3, [3]);
    SameField(resized, zl, 0, 4);
    SameField(resized, zl, 4, 4);
    AllMoved(zl0, resized, zl, p, es);
    RelinkedIs(es, 3);
    NarrowMoved(zl[|zl| - 2 := zl0[|zl0| - 2]], zl, p + 3, Relinked(es, 3));
    ClippedRelinked(es);
    RelinkedEntries(Clipped(es), es);
  }

  /** But for that byte everything has moved. */
  lemma AllMoved(zl0: seq<byte>, resized: seq<byte>, zl: seq<byte>, p: nat, es: seq<Entry>)
    requires Stores(zl0, p, es) && es != [] && es[0].prevSize == 5
    requires |zl| == |resized| == |zl0| - 1 && resized[|resized| - 1] == ZIP_END
    requires forall i :: 4 <= i < |resized| - 1 ==> resized[i] == zl0[i]
    requires p + 4 <= |zl| && zl[p + 3..p + 4] == [3]
    requires p + 5 <= |zl0| - 1 && zl[p + 4..] == resized[p + 5..|zl0| - 1] + resized[|zl0| - 2..]
    ensures var whole := zl[|zl| - 2 := zl0[|zl0| - 2]];
            Stores(whole, p + 3, Relinked(es, 3)) && zl == whole[|zl| - 2 := ZIP_END]
  {
    hide Stores, AreEntries, Flat, Total, EntryBytes, PrevBytes;
    Extent(zl0, p, es);
    AfterField(zl0, p, es);
    AtEnd(zl0, p, es);
    MovedByOne(zl0, resized, zl, p);
    var whole := zl[|zl| - 2 := zl0[|zl0| - 2]];
    assert whole[p + 3] == zl[p + 3] == zl[p + 3..p + 4][0];
    assert whole[p + 3..p + 4] == [3] == PrevEncode(3, 1);
    RelinkedIs(es, 3);
    Refielded(zl0, p, es, whole, p + 3, 1, 3);
  }

  lemma RelinkedEntries(es: seq<Entry>, whole: seq<Entry>)
    requires es == Clipped(whole) && AreEntries(whole) && whole != []
    ensures AreEntries(Relinked(es, 3)) <==> AreEntries(es)
  {
    assert IsEntry(whole[0]);
    assert Relinked(es, 3)[1..] == es[1..];
  }

  method MakeNarrowRoom(zl0: seq<byte>, p: nat, ghost e: Entry, ghost right: seq<Entry>) returns (zl: seq<byte>)
    requires Holds(zl0, p, right) && right != [] && right[0].prevSize == 5 && e.Raw() == 3
    requires AreEntries(Clipped(right)) && Links(Clipped(right))
    requires p + 3 + Total(Shifted(Clipped(right), 3)) + 1 < LIMIT
    ensures Stores(zl, p + 3, Shifted(Clipped(right), 3)) && Field(zl, 0, 4) == |zl|
    ensures Field(zl, 4, 4) == TailOffset(p, [e] + Shifted(Clipped(right), 3))
    ensures forall i :: 8 <= i < p ==> zl[i] == zl0[i]
  {
    hide Stores, Total, AreEntries, Flat, TailOffset, Field, Relinked, Cascade, Links, ZipEntry, Clipped;
    ghost var clipped := Clipped(right);
    ClippedIs(right);
    TailAfter(p, e, Shifted(clipped, 3));
    ShiftedFits(clipped, 3);
    zl := MoveNarrow(zl0, p, right);
    Extent(zl, p + 3, Relinked(clipped, 3));
    zl := AdjustTail(zl, p, 3, -4, clipped);
    RelinkedIs(clipped, 3);
    zl := CascadeUpdate(zl, p + 3, Relinked(clipped, 3));
  }

  lemma ClippedList(left: seq<Entry>, right: seq<Entry>)
    requires AreEntries(left + right) && Linked(left + right) && right != [] && AreEntries(Clipped(right))
    ensures AreEntries(left + Clipped(right)) && Linked(left + Clipped(right)) && Links(Clipped(right))
    ensures Total(left + Clipped(right)) == Total(left + right)
  {
    hide AreEntries, Flat, Total, Links, Items, Clipped;
    var front, last := right[..|right| - 1], right[|right| - 1];
    ClippedIs(right);
    Concat(left, right);
    Concat(left, Clipped(right));
    Concat(front, [last]);
    Concat(front, [ClippedEntry(last)]);
    OneLink(last, ClippedEntry(last));
    assert (left + right)[0] == if left == [] then right[0] else left[0];
  }

  lemma OneLink(a: Entry, b: Entry)
    requires a.Raw() == b.Raw()
    ensures Links([a]) && Links([b]) && Total([a]) == Total([b])
  {
  }

  lemma {:induction false} CascadeBodies(es: seq<Entry>, i: nat)
    requires i < |es|
    ensures Cascade(es)[i].body == es[i].body
    decreases |es|
  {
    if |es| >= 2 && es[1].prevLen != es[0].Raw() && es[1].prevSize < PrevSize(es[0].Raw()) && i > 0 {
      CascadeBodies([Entry(PrevSize(es[0].Raw()), es[0].Raw(), es[1].body)] + es[2..], i - 1);
    }
  }

  lemma LastBody(left: seq<Entry>, right: seq<Entry>, s: seq<byte>)
    requires right != [] && |s| < LIMIT
    ensures var r := Inserted(left, right, s); r != [] && r[|r| - 1].body == right[|right| - 1].body
  {
    CascadeBodies(Relinked(right, NewEntry(left, right, s).Raw()), |right| - 1);
  }

  /** The insertion is right if and only if the clipped byte held the value of an end mark before. */
  lemma OnlyIfUnclipped(zl: seq<byte>, left: seq<Entry>, right: seq<Entry>, s: seq<byte>)
    requires right != [] && |s| < LIMIT && WellFormed(zl, Inserted(left, Clipped(right), s))
    ensures WellFormed(zl, Inserted(left, right, s)) <==> Clipped(right) == right
  {
    hide Inserted, Stores;
    if WellFormed(zl, Inserted(left, right, s)) {
      Unambiguous(zl, HEADER, Inserted(left, right, s), Inserted(left, Clipped(right), s));
      LastBody(left, right, s);
      LastBody(left, Clipped(right), s);
    }
  }

  /** __ziplistInsert, called for an entry of three bytes in front of one with a field of five: the new entry is there,
      but the last entry of the list has lost its last byte. */
  method InsertNarrow(zl0: seq<byte>, p: nat, s: seq<byte>, ghost left: seq<Entry>, ghost right: seq<Entry>)
      returns (zl: seq<byte>)
    requires WellFormed(zl0, left + right) && p == HEADER + Total(left)
    requires right != [] && right[0].prevSize == 5 && AreEntries(Clipped(right))
    requires SizeFits(left, Clipped(right), s) && NewEntry(left, right, s).Raw() == 3
    ensures WellFormed(zl, Inserted(left, Clipped(right), s))
    ensures WellFormed(zl, Inserted(left, right, s)) <==> Clipped(right) == right
  {
    hide Stores, Total, AreEntries, Flat, TailOffset, Field, Relinked, Cascade, Links, Items, EntryBytes, PrevEncode;
    hide Inserted, Shifted, ItemFor, TryEncoding, EncodeLength, SaveInteger, Encoded, IsEntry, Clipped;
    ghost var clipped := Clipped(right);
    ClippedIs(right);
    Extent(zl0, HEADER, left + right);
    ClippedList(left, right);
    InsertFits(left, clipped, s);
    ItemBytes(s);
    StoresSplit(zl0, HEADER, left, right);
    HoldsSplit(zl0, HEADER, left, right);
    ghost var e := NewEntry(left, clipped, s);
    assert e == NewEntry(left, right, s);
    var prevlen := PrevLenBefore(zl0, p, left, right);
    var encoding: byte, payload := 0, s;
    match TryEncoding(s) {
      case None =>
      case Some((v, enc)) =>
        encoding := enc;
        payload := SaveInteger(v, enc);
    }
    var head, length := PrevEncode(prevlen, PrevSize(prevlen)), EncodeLength(encoding, |s|);
    zl := MakeNarrowRoom(zl0, p, e, right);
    Extent(zl, p + 3, Shifted(clipped, 3));
    assert zl[HEADER..p] == zl0[HEADER..p];
    SameField(zl0, zl, 8, 2);
    zl := PlaceEntry(zl, p, head, length, payload, left, e, Shifted(clipped, 3), |left + right|);
    OnlyIfUnclipped(zl, left, right, s);
  }

  // ----- an example -----

  const A := Entry(1, 0, [1, 65])
  const WIDE_A := Entry(5, 3, [1, 65])
  const HUNDRED := Entry(1, 3, [254, 100])
  const CLIPPED_A := Entry(1, 3, [1, 255])

  lemma HundredIs()
    ensures NewEntry([A], [WIDE_A], [49, 48, 48]) == NewEntry([A], [ClippedEntry(WIDE_A)], [49, 48, 48]) == HUNDRED
  {
    var s: seq<byte> := [49, 48, 48];
    assert s[..2] == [49, 48] && s[..2][..1] == [49];
    assert Digits(s[..2], 10) == Some(10);
    assert SkipSpaces(s) == s && Digits(s, 10) == Some(100);
    assert SaturatingStrtoll(s) == Some(100);
  }

  lemma ExampleBytes(zl: seq<byte>)
    requires zl == [21, 0, 0, 0, 13, 0, 0, 0, 2, 0, 0, 1, 65, 254, 3, 0, 0, 0, 1, 65, 255]
    ensures WellFormed(zl, [A] + [WIDE_A])
  {
    hide Stores, Field, TailOffset, Total, EntryBytes, Flat;
    ExampleFields(zl);
    ExampleEntries(zl);
    TailOffsetConcat(HEADER, [A], [WIDE_A]);
    OneEntry(A);
    LastIsTail(13, WIDE_A);
    ExampleLinks();
  }

  lemma ExampleLinks()
    ensures Linked([A] + [WIDE_A])
  {
    assert ([A] + [WIDE_A])[1..] == [WIDE_A] && Links([WIDE_A]);
    assert A.Raw() == 3 == WIDE_A.prevLen;
  }

  lemma ExampleFields(zl: seq<byte>)
    requires zl == [21, 0, 0, 0, 13, 0, 0, 0, 2, 0, 0, 1, 65, 254, 3, 0, 0, 0, 1, 65, 255]
    ensures Field(zl, 0, 4) == 21 && Field(zl, 4, 4) == 13 && Field(zl, 8, 2) == 2
  {
    hide FromLE, ToLE, Span;
    Small4(21);
    Small4(13);
    Small2(2);
    FromToLE(21, 4);
    FromToLE(13, 4);
    FromToLE(2, 2);
    assert zl[0..4] == [21, 0, 0, 0] && zl[4..8] == [13, 0, 0, 0] && zl[8..10] == [2, 0];
  }

  lemma Small2(n: nat)
    requires n < 256
    ensures ToLE(n, 2) == [n, 0] && n < Span(2)
  {
    assert ToLE(0, 1) == [0] + ToLE(0, 0);
  }

  lemma Small4(n: nat)
    requires n < 256
    ensures ToLE(n, 4) == [n, 0, 0, 0] && n < Span(4)
  {
    Small2(0);
    assert ToLE(0, 3) == [0] + ToLE(0, 2);
  }

  lemma ExampleEntries(zl: seq<byte>)
    requires zl == [21, 0, 0, 0, 13, 0, 0, 0, 2, 0, 0, 1, 65, 254, 3, 0, 0, 0, 1, 65, 255]
    ensures Stores(zl, HEADER, [A] + [WIDE_A])
  {
    BytesOfEntries();
    hide Stores, EntryBytes, Flat, Total, AreEntries;
    OneEntry(A);
    assert zl[13..] == [254, 3, 0, 0, 0, 1, 65] + [ZIP_END];
    OneStored(zl, 13, WIDE_A);
    assert zl[10..13] == [0, 1, 65];
    StoresPrepend(zl, HEADER, [A], [WIDE_A]);
  }

  lemma BytesOfEntries()
    ensures IsEntry(A) && EntryBytes(A) == [0, 1, 65]
    ensures IsEntry(WIDE_A) && EntryBytes(WIDE_A) == [254, 3, 0, 0, 0, 1, 65]
  {
    Small4(3);
  }

  /** A list of two strings "A", the second with a wide field; "100" put between them makes the second one 0xff. */
  method NarrowExample() returns (zl: seq<byte>)
    ensures WellFormed(zl, [A, HUNDRED, CLIPPED_A])
    ensures Items([A, HUNDRED, CLIPPED_A]) == [Str([65]), Int(100), Str([255])]
  {
    hide WellFormed;
    var zl0: seq<byte> := [21, 0, 0, 0, 13, 0, 0, 0, 2, 0, 0, 1, 65, 254, 3, 0, 0, 0, 1, 65, 255];
    ExampleBytes(zl0);
    HundredIs();
    ExampleInserted();
    zl := InsertNarrow(zl0, 13, [49, 48, 48], [A], [WIDE_A]);
  }

  lemma ExampleInserted()
    ensures Clipped([WIDE_A]) == [ClippedEntry(WIDE_A)] && AreEntries(Clipped([WIDE_A]))
    ensures Inserted([A], Clipped([WIDE_A]), [49, 48, 48]) == [A, HUNDRED, CLIPPED_A]
    ensures SizeFits([A], Clipped([WIDE_A]), [49, 48, 48]) && HEADER + Total([A]) == 13
    ensures AreEntries([A, HUNDRED, CLIPPED_A]) && Items([A, HUNDRED, CLIPPED_A]) == [Str([65]), Int(100), Str([255])]
  {
    hide NewEntry, AreEntries, Items, Total, Relinked, Cascade;
    HundredIs();
    OneEntry(A);
    ClippedWide();
    ExampleItems();
  }

  lemma ClippedWide()
    ensures IsEntry(ClippedEntry(WIDE_A)) && AreEntries([ClippedEntry(WIDE_A)]) && [WIDE_A][..0] == []
    ensures Cascade(Relinked([ClippedEntry(WIDE_A)], 3)) == [CLIPPED_A]
  {
    assert ClippedEntry(WIDE_A).body == [1, 255];
    RelinkedIs([ClippedEntry(WIDE_A)], 3);
  }

  lemma ExampleItems()
    ensures var es := [A] + [HUNDRED] + [CLIPPED_A];
            && es == [A, HUNDRED, CLIPPED_A] && AreEntries(es) && Total(es) == 9
            && Items(es) == [Str([65]), Int(100), Str([255])]
  {
    OneItem(A, Str([65]));
    OneItem(HUNDRED, Int(100));
    OneItem(CLIPPED_A, Str([255]));
    hide AreEntries, Items, Total, Flat, Links;
    Concat([A], [HUNDRED]);
    Concat([A] + [HUNDRED], [CLIPPED_A]);
  }

  lemma OneItem(e: Entry, item: Item)
    requires IsEntry(e) && ItemOf(e.body) == item
    ensures AreEntries([e]) && Items([e]) == [item] && Total([e]) == e.Raw()
  {
    assert Items([e]) == [item] + Items([]);
  }
}
