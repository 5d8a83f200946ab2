/** The entries of a ziplist (QedisCore/redisZipList.c): their encodings, and the edits of the list as a sequence. */
module ZiplistFormat {
  import opened Bytes
  import opened Options
  import opened Integers

  const ZIP_END: byte := 255
  const ZIP_BIGLEN: byte := 254
  const LIMIT := 0x1_0000_0000

  datatype Item = Str(text: seq<byte>) | Int(value: int)

  // ----- the encoding byte, and the payload after it -----

  function LenSize(b: byte): (n: nat) { if b < 64 then 1 else if b < 128 then 2 else if b < 192 then 5 else 1 }

  /** zipIntSize; the immediate encodings carry their value themselves. */
  function IntSize(b: byte): (n: nat) {
    if b == 254 then 1 else if b == 192 then 2 else if b == 240 then 3 else if b == 208 then 4
    else if b == 224 then 8 else 0
  }

  predicate IsIntEncoding(b: byte) { b == 254 || b == 192 || b == 240 || b == 208 || b == 224 || 241 <= b <= 253 }

  /** ZIP_DECODE_LENGTH. */
  function PayloadLen(s: seq<byte>): (n: nat)
    requires 0 < |s| && LenSize(s[0]) <= |s|
  {
    var b: int := s[0];
    if b < 64 then b
    else if b < 128 then var low: int := s[1]; b % 64 * 256 + low
    else if b < 192 then FromBE4(s[1..5])
    else IntSize(s[0])
  }

  /** An entry without its first field: encoding, length and payload. */
  predicate IsBody(s: seq<byte>) {
    && 0 < |s| < LIMIT && LenSize(s[0]) <= |s|
    && |s| == LenSize(s[0]) + PayloadLen(s)
    && (s[0] >= 192 ==> IsIntEncoding(s[0]))
  }

  function ItemOf(body: seq<byte>): Item
    requires IsBody(body)
  {
    if body[0] < 192 then Str(body[LenSize(body[0])..]) else Int(LoadInteger(body[1..], body[0]))
  }

  // ----- integers -----

  predicate Fits(v: int, encoding: byte) {
    if IntSize(encoding) == 0 then 241 <= encoding <= 253 && v == encoding - 241
    else FitsSigned(v, IntSize(encoding))
  }

  /** zipSaveInteger: 24-bit values are shifted into the upper bytes of a 32-bit one. */
  function SaveInteger(v: int, encoding: byte): (p: seq<byte>)
    requires Fits(v, encoding)
    ensures |p| == IntSize(encoding)
  {
    if encoding == 240 then ToSigned(v * 256, 4)[1..]
    else if IntSize(encoding) == 0 then []
    else ToSigned(v, IntSize(encoding))
  }

  /** zipLoadInteger: the right shift of a signed integer rounds down. */
  function LoadInteger(p: seq<byte>, encoding: byte): int
    requires IsIntEncoding(encoding) && IntSize(encoding) <= |p|
  {
    if encoding == 240 then FromSigned([0] + p[..3]) / 256
    else if IntSize(encoding) == 0 then encoding - 241
    else FromSigned(p[..IntSize(encoding)])
  }

  lemma LoadSavedInteger(v: int, encoding: byte)
    requires IsIntEncoding(encoding) && Fits(v, encoding)
    ensures LoadInteger(SaveInteger(v, encoding), encoding) == v
  {
    var p := SaveInteger(v, encoding);
    assert p[..IntSize(encoding)] == p;
    if encoding == 240 {
      var n := if v * 256 < 0 then v * 256 + Span(4) else v * 256;
      assert Span(4) == 256 * Span(3);
      assert n % 256 == 0;
      assert ToLE(n, 4) == [0] + ToLE(n / 256, 3);
      assert [0] + p == ToSigned(v * 256, 4);
      FromToSigned(v * 256, 4);
    } else if IntSize(encoding) > 0 {
      FromToSigned(v, IntSize(encoding));
    }
  }

  /** zipTryEncoding: the value and the smallest encoding that holds it. */
  function TryEncoding(s: seq<byte>): (r: Option<(int, byte)>)
    ensures r.Some? ==> IsIntEncoding(r.value.1) && Fits(r.value.0, r.value.1)
  {
    if |s| >= 32 || s == [] then None
    else match SaturatingStrtoll(s)
      case None => None
      case Some(v) =>
        assert Span(1) == 0x100 && Span(2) == 0x1_0000 && Span(3) == 0x100_0000;
        assert Span(4) == 0x1_0000_0000 && Span(8) == 0x1_0000_0000 * 0x1_0000_0000;
        Some((v, if 0 <= v <= 12 then 241 + v
                 else if -0x80 <= v <= 0x7f then 254
                 else if -0x8000 <= v <= 0x7fff then 192
                 else if -0x80_0000 <= v <= 0x7f_ffff then 240
                 else if -0x8000_0000 <= v <= 0x7fff_ffff then 208
                 else 224))
  }

  /** zipEncodeLength. */
  function EncodeLength(encoding: byte, rawlen: nat): (h: seq<byte>)
    requires rawlen < LIMIT
    ensures h != []
  {
    if encoding < 192 then
      if rawlen <= 0x3f then [rawlen]
      else if rawlen <= 0x3fff then [64 + rawlen / 256, rawlen % 256]
      else [128] + ToBE4(rawlen)
    else [encoding]
  }

  function Encoded(s: seq<byte>): (body: seq<byte>)
    requires |s| < LIMIT
    ensures body != []
  {
    match TryEncoding(s)
    case Some((v, encoding)) => [encoding] + SaveInteger(v, encoding)
    case None => EncodeLength(0, |s|) + s
  }

  /** What a list holds after s is put in: integers in place of strings of at most 21 characters that spell them, the
      nearest 64-bit ones when they are greater. */
  function ItemFor(s: seq<byte>): Item {
    if 0 < |s| <= 21 && Parse(s).Some? then
      var v := Parse(s).value;
      Int(if v < -0x8000_0000_0000_0000 then -0x8000_0000_0000_0000
          else if v > 0x7FFF_FFFF_FFFF_FFFF then 0x7FFF_FFFF_FFFF_FFFF
          else v)
    else Str(s)
  }

  /** The decimal rendering of a 64-bit integer goes in as that integer. */
  lemma DecimalItem(v: int)
    requires -0x8000_0000_0000_0000 <= v <= 0x7FFF_FFFF_FFFF_FFFF
    ensures |Decimal(v)| <= 20 && ItemFor(Decimal(v)) == Int(v)
  {
    DecimalIsInteger(v);
    ParseDecimal(v);
  }

  lemma TryEncodingIs(s: seq<byte>)
    ensures ItemFor(s) == match TryEncoding(s) case Some((v, _)) => Int(v) case None => Str(s)
  {
    hide Parse;
  }

  lemma EncodedIsBody(s: seq<byte>)
    requires |s| < LIMIT - 5
    ensures IsBody(Encoded(s)) && ItemOf(Encoded(s)) == ItemFor(s)
  {
    TryEncodingIs(s);
    if TryEncoding(s).Some? {
      IntegerIsBody(s);
    } else {
      StringIsBody(s);
    }
  }

  lemma IntegerIsBody(s: seq<byte>)
    requires |s| < LIMIT - 5 && TryEncoding(s).Some?
    ensures IsBody(Encoded(s)) && ItemOf(Encoded(s)) == Int(TryEncoding(s).value.0)
  {
    var (v, encoding) := TryEncoding(s).value;
    LoadSavedInteger(v, encoding);
    hide TryEncoding, LoadInteger, SaveInteger;
    assert Encoded(s)[1..] == SaveInteger(v, encoding);
  }

  lemma StringIsBody(s: seq<byte>)
    requires |s| < LIMIT - 5 && TryEncoding(s) == None
    ensures IsBody(Encoded(s)) && ItemOf(Encoded(s)) == Str(s)
  {
    hide TryEncoding, LoadInteger, SaveInteger, ToBE4;
    var body := Encoded(s);
    var h := EncodeLength(0, |s|);
    AppendPrefix(h, s);
    if |s| > 0x3fff {
      assert body[1..5] == ToBE4(|s|);
      FromToBE4(|s|);
    }
  }

  /** The header bytes on either side of where their forms change. */
  lemma HeadersAre()
    ensures EncodeLength(0, 63) == [63] && EncodeLength(0, 64) == [64, 64] && EncodeLength(0, 0x3fff) == [127, 255]
    ensures EncodeLength(0, 0x4000) == [128, 0, 0, 64, 0]
  {
  }

  /** The bytes of integers of several encodings. */
  lemma IntegersAre()
    ensures forall v :: v in {12, -1, 128, -0x8001} ==> |Decimal(v)| < LIMIT
    ensures Encoded(Decimal(12)) == [253] && Encoded(Decimal(-1)) == [254, 255]
    ensures Encoded(Decimal(128)) == [192, 128, 0] && Encoded(Decimal(-0x8001)) == [240, 255, 127, 255]
  {
    hide Decimal, Encoded, ToLE, Span;
    SavedAs(12);
    SavedAs(-1);
    SavedAs(128);
    SavedAs(-0x8001);
    SmallBytes();
    ShiftedBytes();
  }

  lemma SmallBytes()
    ensures Fits(-1, 254) && SaveInteger(-1, 254) == [255] && Fits(128, 192) && SaveInteger(128, 192) == [128, 0]
  {
    assert Span(1) == 256 && Span(2) == 0x1_0000;
    assert ToLE(255, 1) == [255] + ToLE(0, 0) && ToLE(128, 2) == [128] + ToLE(0, 1) && ToLE(0, 1) == [0] + ToLE(0, 0);
  }

  lemma ShiftedBytes()
    ensures Fits(-0x8001, 240) && SaveInteger(-0x8001, 240) == [255, 127, 255]
  {
    assert Span(3) == 0x100_0000 && Span(4) == 256 * Span(3);
    FourBytes();
    hide ToLE;
    assert ToSigned(-0x8001 * 256, 4) == [0, 255, 127, 255];
  }

  lemma FourBytes()
    ensures ToLE(0xFF7F_FF00, 4) == [0, 255, 127, 255]
  {
    assert ToLE(0xFF7F_FF00, 4) == [0] + ToLE(0xFF_7FFF, 3) && ToLE(0xFF_7FFF, 3) == [255] + ToLE(0xFF7F, 2);
    assert ToLE(0xFF7F, 2) == [127] + ToLE(0xFF, 1) && ToLE(0xFF, 1) == [255] + ToLE(0, 0);
  }

  lemma SavedAs(v: int)
    requires -0x8_0000 <= v <= 0x7_ffff
    ensures var encoding := if 0 <= v <= 12 then 241 + v else if -0x80 <= v <= 0x7f then 254
                            else if -0x8000 <= v <= 0x7fff then 192 else 240;
            Fits(v, encoding) && |Decimal(v)| < LIMIT && Encoded(Decimal(v)) == [encoding] + SaveInteger(v, encoding)
  {
    hide Decimal, Parse, SaveInteger;
    DecimalIsInteger(v);
    ParseDecimal(v);
  }

  /** No other entry for the same item is shorter. */
  lemma EncodedIsShortest(s: seq<byte>, body: seq<byte>)
    requires |s| < LIMIT - 5 && IsBody(body) && ItemOf(body) == ItemFor(s)
    ensures |Encoded(s)| <= |body|
  {
    hide LoadInteger, SaveInteger, ItemFor;
    TryEncodingIs(s);
    match TryEncoding(s)
    case None => assert |body| == LenSize(body[0]) + |s|;
    case Some((v, encoding)) =>
      LoadedFits(body[1..], body[0]);
      LeastFits(s, body[0]);
  }

  lemma LoadedFits(p: seq<byte>, encoding: byte)
    requires IsIntEncoding(encoding) && IntSize(encoding) <= |p|
    ensures Fits(LoadInteger(p, encoding), encoding)
  {
    if encoding == 240 {
      assert Span(4) == 256 * Span(3);
    }
  }

  lemma LeastFits(s: seq<byte>, other: byte)
    requires TryEncoding(s).Some? && IsIntEncoding(other) && Fits(TryEncoding(s).value.0, other)
    ensures IntSize(TryEncoding(s).value.1) <= IntSize(other)
  {
    hide SaturatingStrtoll;
    assert Span(1) == 0x100 && Span(2) == 0x1_0000 && Span(3) == 0x100_0000 && Span(4) == 0x1_0000_0000;
  }

  // ----- entries -----

  /** prevSize is 1 or 5, the width of the first field, which holds the length of the entry before. */
  datatype Entry = Entry(prevSize: nat, prevLen: nat, body: seq<byte>) {
    function Raw(): nat { prevSize + |body| }
  }

  predicate IsEntry(e: Entry) {
    (if e.prevSize == 1 then e.prevLen < 254 else e.prevSize == 5 && e.prevLen < LIMIT) && IsBody(e.body)
  }

  predicate AreEntries(es: seq<Entry>) { es == [] || (IsEntry(es[0]) && AreEntries(es[1..])) }

  /** zipPrevEncodeLength without a destination. */
  function PrevSize(len: nat): (n: nat) { if len < 254 then 1 else 5 }

  /** The first field of an entry: one byte, or ZIP_BIGLEN and four. */
  function PrevEncode(len: nat, size: nat): (b: seq<byte>)
    requires if size == 1 then len < 254 else size == 5 && len < LIMIT
    ensures |b| == size && b[0] != ZIP_END && (b[0] < ZIP_BIGLEN <==> size == 1)
  {
    if size == 1 then [len] else [ZIP_BIGLEN] + ToLE(len, 4)
  }

  function PrevBytes(e: Entry): (b: seq<byte>)
    requires IsEntry(e)
    ensures |b| == e.prevSize && b[0] != ZIP_END
  {
    PrevEncode(e.prevLen, e.prevSize)
  }

  function EntryBytes(e: Entry): (b: seq<byte>)
    requires IsEntry(e)
    ensures |b| == e.Raw() && b[0] != ZIP_END
  {
    PrevBytes(e) + e.body
  }

  function Flat(es: seq<Entry>): (b: seq<byte>)
    requires AreEntries(es)
    ensures |b| >= 2 * |es| && |b| == Total(es)
  {
    if es == [] then [] else EntryBytes(es[0]) + Flat(es[1..])
  }

  function Total(es: seq<Entry>): nat { if es == [] then 0 else es[0].Raw() + Total(es[1..]) }

  /** Every entry but the first records the length of the one before it. */
  predicate Links(es: seq<Entry>) {
    |es| < 2 || (es[1].prevLen == es[0].Raw() && Links(es[1..]))
  }

  predicate Linked(es: seq<Entry>) { Links(es) && (es != [] ==> es[0].prevLen == 0) }

  function Items(es: seq<Entry>): (items: seq<Item>)
    requires AreEntries(es)
    ensures |items| == |es|
  {
    if es == [] then [] else [ItemOf(es[0].body)] + Items(es[1..])
  }

  /** Lists of entries concatenate part by part. */
  lemma {:induction false} Concat(a: seq<Entry>, b: seq<Entry>)
    ensures Total(a + b) == Total(a) + Total(b)
    ensures AreEntries(a + b) <==> AreEntries(a) && AreEntries(b)
    ensures AreEntries(a + b) ==> Items(a + b) == Items(a) + Items(b) && Flat(a + b) == Flat(a) + Flat(b)
    ensures Links(a + b) <==> Links(a) && Links(b) && (a != [] && b != [] ==> b[0].prevLen == a[|a| - 1].Raw())
  {
    if a == [] {
      assert a + b == b;
    } else {
      assert (a + b)[0] == a[0] && (a + b)[1..] == a[1..] + b;
      Concat(a[1..], b);
      if AreEntries(a + b) {
        AppendAssociates(EntryBytes(a[0]), Flat(a[1..]), Flat(b));
        AppendAssociates([ItemOf(a[0].body)], Items(a[1..]), Items(b));
      }
    }
  }

  // ----- the cascade -----

  /** __ziplistCascadeUpdate as a function of the entries from p on: only the link after the first may be stale. */
  function Cascade(es: seq<Entry>): (r: seq<Entry>)
    ensures |r| == |es|
    decreases |es|
  {
    if |es| < 2 || es[1].prevLen == es[0].Raw() then es
    else if es[1].prevSize < PrevSize(es[0].Raw()) then
      [es[0]] + Cascade([Entry(PrevSize(es[0].Raw()), es[0].Raw(), es[1].body)] + es[2..])
    else [es[0], Entry(es[1].prevSize, es[0].Raw(), es[1].body)] + es[2..]
  }

  /** The cascade repairs every link, however far it has to run, and changes nothing else: the payloads stay, and
      the entries only grow. */
  lemma {:induction false} CascadeRepairs(es: seq<Entry>)
    requires AreEntries(es) && es != [] && Links(es[1..]) && Total(Cascade(es)) < LIMIT
    ensures var r := Cascade(es);
            && AreEntries(r) && Links(r) && Items(r) == Items(es) && r[0] == es[0] && Total(r) >= Total(es)
    decreases |es|
  {
    if |es| >= 2 && es[1].prevLen != es[0].Raw() {
      var rest := Stepped(es);
      assert Cascade(es)[1..] == if es[1].prevSize < PrevSize(es[0].Raw()) then Cascade(rest) else rest;
      SteppedLinks(es);
      if es[1].prevSize < PrevSize(es[0].Raw()) {
        CascadeRepairs(rest);
      }
    }
  }

  /** What follows the first entry once the field of the second is set, widened if need be. */
  function Stepped(es: seq<Entry>): seq<Entry>
    requires |es| >= 2
  {
    var size := PrevSize(es[0].Raw());
    [Entry(if es[1].prevSize < size then size else es[1].prevSize, es[0].Raw(), es[1].body)] + es[2..]
  }

  lemma SteppedLinks(es: seq<Entry>)
    requires AreEntries(es) && |es| >= 2 && Links(es[1..]) && es[0].Raw() < LIMIT
    ensures var rest := Stepped(es);
            && AreEntries(rest) && Links(rest[1..]) && Total(es[1..]) <= Total(rest) && Items(rest) == Items(es[1..])
            && (es[1].prevSize >= PrevSize(es[0].Raw()) ==> Links(rest))
  {
    var rest := Stepped(es);
    assert rest[1..] == es[2..] && es[1..][1..] == es[2..];
    assert |es| > 2 ==> es[1..][1] == es[2] && rest[1] == es[2];
  }

  /** The cascade is a run of widenings, one each, up to an entry whose length does not change; there it stops. */
  lemma {:induction false} CascadeExtent(es: seq<Entry>) returns (stop: nat)
    requires AreEntries(es) && es != [] && Links(es[1..]) && Total(Cascade(es)) < LIMIT
    ensures 0 < stop <= |es|
    ensures forall i :: 0 < i < stop ==> es[i].prevSize == 1 && Cascade(es)[i].prevSize == 5
    ensures stop < |es| ==> Cascade(es)[stop].prevSize == es[stop].prevSize
    ensures forall i :: stop < i < |es| ==> Cascade(es)[i] == es[i]
    decreases |es|
  {
    stop := 1;
    if |es| >= 2 && es[1].prevLen != es[0].Raw() && es[1].prevSize < PrevSize(es[0].Raw()) {
      var rest := Stepped(es);
      SteppedLinks(es);
      assert Cascade(es) == [es[0]] + Cascade(rest);
      stop := CascadeExtent(rest);
      stop := stop + 1;
      CascadeRepairs(rest);
    }
  }

  /** Nothing happens when the links are right. */
  lemma CascadeIdle(es: seq<Entry>)
    requires Links(es)
    ensures Cascade(es) == es
  {
  }

  // ----- insertion and deletion -----

  /** The first entry of es with its field rewritten to the given length, as narrow as that length allows. */
  function Relinked(es: seq<Entry>, len: nat): seq<Entry> {
    if es == [] then [] else [Entry(PrevSize(len), len, es[0].body)] + es[1..]
  }

  /** The entry made for s between left and right. */
  function NewEntry(left: seq<Entry>, right: seq<Entry>, s: seq<byte>): Entry
    requires |s| < LIMIT
  {
    var prevlen := if right != [] then right[0].prevLen else if left == [] then 0 else left[|left| - 1].Raw();
    Entry(PrevSize(prevlen), prevlen, Encoded(s))
  }

  function Inserted(left: seq<Entry>, right: seq<Entry>, s: seq<byte>): seq<Entry>
    requires |s| < LIMIT
  {
    var e := NewEntry(left, right, s);
    left + [e] + Cascade(Relinked(right, e.Raw()))
  }

  /** The middle entries dropped; what follows them is linked to what precedes them. */
  function Deleted(left: seq<Entry>, middle: seq<Entry>, right: seq<Entry>): seq<Entry> {
    left + (if middle == [] then right else Cascade(Relinked(right, middle[0].prevLen)))
  }

  lemma RelinkedRepairs(es: seq<Entry>, len: nat)
    requires AreEntries(es) && Links(es) && len < LIMIT && Total(Cascade(Relinked(es, len))) < LIMIT
    ensures var r := Cascade(Relinked(es, len));
            && AreEntries(r) && Links(r) && Items(r) == Items(es) && (r != [] ==> r[0].prevLen == len)
  {
    if es != [] {
      assert Relinked(es, len)[1..] == es[1..];
      CascadeRepairs(Relinked(es, len));
    }
  }

  lemma TotalLast(es: seq<Entry>)
    ensures es != [] ==> es[|es| - 1].Raw() <= Total(es)
  {
    if es != [] {
      hide Total, AreEntries, Items, Flat, Links;
      var front, last := es[..|es| - 1], es[|es| - 1];
      assert es == front + [last];
      Concat(front, [last]);
      TotalOne(last);
    }
  }

  lemma TotalOne(e: Entry)
    ensures Total([e]) == e.Raw()
  {
  }

  lemma NewEntryFits(left: seq<Entry>, right: seq<Entry>, s: seq<byte>)
    requires AreEntries(left + right) && Linked(left + right) && Total(left + right) < LIMIT && |s| < LIMIT - 5
    ensures var e := NewEntry(left, right, s);
            && AreEntries([e]) && Links([e]) && Items([e]) == [ItemFor(s)]
            && e.prevLen == if left == [] then 0 else left[|left| - 1].Raw()
  {
    hide Flat, Total, Cascade, Encoded;
    EncodedIsBody(s);
    Concat(left, right);
    TotalLast(left);
    TotalLast(left + right);
    assert left + right != [] ==> (left + right)[0] == if left != [] then left[0] else right[0];
  }

  /** Its field is as narrow as the length allows. */
  predicate IsNarrow(e: Entry) { e.prevSize == if e.prevLen < 254 then 1 else 5 }

  /** Inserting puts one item in, keeps the others, and leaves every link right. */
  lemma InsertedItems(left: seq<Entry>, right: seq<Entry>, s: seq<byte>)
    requires AreEntries(left + right) && Linked(left + right) && Total(left + right) < LIMIT && |s| < LIMIT - 5
    requires Total(Inserted(left, right, s)) < LIMIT
    ensures AreEntries(left) && AreEntries(right)
    ensures var r := Inserted(left, right, s);
            AreEntries(r) && Linked(r) && Items(r) == Items(left) + [ItemFor(s)] + Items(right)
  {
    var e := NewEntry(left, right, s);
    var tail := Cascade(Relinked(right, e.Raw()));
    NewEntryFits(left, right, s);
    assert (left + right != [] ==> left == [] || (left + right)[0] == left[0]);
    hide NewEntry, Cascade, Relinked, Items, AreEntries, Links, Total;
    Concat(left, right);
    Concat(left, [e]);
    Concat(left + [e], tail);
    TotalLast(left + [e]);
    RelinkedRepairs(right, e.Raw());
  }

  /** The new entry, and the one behind it, have the narrowest fields. */
  lemma InsertedNarrow(left: seq<Entry>, right: seq<Entry>, s: seq<byte>)
    requires |s| < LIMIT
    ensures var r := Inserted(left, right, s);
            |r| == |left| + 1 + |right| && IsNarrow(r[|left|]) && (right != [] ==> IsNarrow(r[|left| + 1]))
  {
    hide Cascade, Encoded;
    FirstStays(Relinked(right, NewEntry(left, right, s).Raw()));
  }

  lemma FirstStays(es: seq<Entry>)
    ensures es != [] ==> Cascade(es) != [] && Cascade(es)[0] == es[0]
  {
  }

  /** Deleting takes the middle items out, keeps the others, and leaves every link right. */
  lemma DeletedItems(left: seq<Entry>, middle: seq<Entry>, right: seq<Entry>)
    requires AreEntries(left + (middle + right)) && Linked(left + (middle + right))
    requires Total(left + (middle + right)) < LIMIT && Total(Deleted(left, middle, right)) < LIMIT
    ensures AreEntries(left) && AreEntries(right)
    ensures var r := Deleted(left, middle, right);
            AreEntries(r) && Linked(r) && Items(r) == Items(left) + Items(right)
  {
    hide Cascade, Relinked, Items, AreEntries, Links, Total, Flat, IsEntry, EntryBytes;
    Concat(left, middle + right);
    Concat(middle, right);
    if middle == [] {
      assert middle + right == right;
    } else {
      var all := left + (middle + right);
      assert all[0] == if left == [] then middle[0] else left[0];
      var tail := Cascade(Relinked(right, middle[0].prevLen));
      FirstIsEntry(middle);
      Concat(left, tail);
      RelinkedRepairs(right, middle[0].prevLen);
    }
  }

  lemma FirstIsEntry(es: seq<Entry>)
    requires AreEntries(es) && es != []
    ensures IsEntry(es[0]) && es[0].prevLen < LIMIT
  {
  }
}
