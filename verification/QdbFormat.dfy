/** The snapshot format of QedisCore/QDB.cc: what a loader makes of the bytes, and what a saver may write. */
module QdbFormat {
  import opened Bytes
  import opened Options
  import opened Integers
  import Lzf

  type QString = seq<byte>

  /** A stored value. Strings that look like integers are kept as integers (QEncode_int). */
  datatype QObject =
    | Invalid
    | Raw(text: QString)
    | Integer(value: int)
    | List(items: seq<QString>)
    | Set(members: set<QString>)
    | Hash(fields: map<QString, QString>)

  const TYPE_STRING: byte := 0
  const TYPE_LIST: byte := 1
  const TYPE_SET: byte := 2
  const TYPE_HASH: byte := 4

  const VERSION: byte := 6

  const MAX_LENGTH := 0x1_0000_0000

  // ----- loading -----

  /** Ok holds what was read and the bytes left; Throw is the runtime_error of a short read or a bad tag. */
  datatype Parsed<T> = Ok(value: T, rest: seq<byte>) | Throw

  datatype Length = Plain(n: nat) | Special(code: nat)

  /** 6 bits, 14 bits, 32 bits big-endian, or a special code. */
  function LoadLength(b: seq<byte>): (r: Parsed<Length>)
    ensures r.Ok? ==> |r.rest| < |b| && r.rest == b[|b| - |r.rest|..]
  {
    if b == [] then Throw
    else
      var low: nat := b[0] % 64;
      if b[0] < 64 then Ok(Plain(low), b[1..])
      else if b[0] < 128 then
        if |b| < 2 then Throw else Ok(Plain(low * 256 + b[1]), b[2..])
      else if b[0] < 192 then
        if |b| < 5 then Throw else Ok(Plain(FromBE4(b[1..5])), b[5..])
      else Ok(Special(low), b[1..])
  }

  /** Reading past the end is refused only when nothing is left; otherwise the string is cut short. */
  function LoadString(b: seq<byte>, n: nat): (r: Parsed<QString>)
    ensures r.Ok? ==> |r.rest| <= |b|
  {
    if b == [] && n > 0 then Throw
    else if n > |b| then Ok(b, [])
    else Ok(b[..n], b[n..])
  }

  function Zeros(n: nat): (s: seq<byte>)
    ensures |s| == n
  {
    seq(n, _ => 0)
  }

  /** A result of fewer than rawLen bytes is padded; a failed decompression yields the empty string and leaves
      the compressed bytes unread. */
  function Unpack(b: seq<byte>, packedLen: nat, rawLen: nat): (r: Parsed<QString>)
    ensures r.Ok? && |r.rest| <= |b|
  {
    var n := if packedLen > |b| then |b| else packedLen;
    if n == 0 then Ok([], b)
    else match Lzf.Expand(b[..n], [], rawLen)
      case Failed(_) => Ok([], b)
      case Done(out) =>
        if out == [] || |out| > rawLen then Ok([], b) else Ok(out + Zeros(rawLen - |out|), b[n..])
  }

  function LoadLZFString(b: seq<byte>): (r: Parsed<QString>)
    ensures r.Ok? ==> |r.rest| <= |b|
  {
    match LoadLength(b)
    case Throw => Throw
    case Ok(Special(_), rest) => Ok([], rest)
    case Ok(Plain(packedLen), rest) =>
      match LoadLength(rest)
      case Throw => Throw
      case Ok(Special(_), rest) => Ok([], rest)
      case Ok(Plain(rawLen), rest) =>
        if rest == [] then Throw else Unpack(rest, packedLen, rawLen)
  }

  /** CreateString: a text that is an integer becomes one. */
  function CreateString(s: QString): QObject {
    match Strtol(s)
    case Some(v) => Integer(v)
    case None => Raw(s)
  }

  function LoadSpecialStringObject(b: seq<byte>, code: nat): (r: Parsed<QObject>)
    ensures r.Ok? ==> |r.rest| <= |b| && (r.value.Raw? || r.value.Integer?)
  {
    if code <= 2 then
      var width := if code == 0 then 1 else if code == 1 then 2 else 4;
      if |b| < width then Throw else Ok(Integer(FromLE(b[..width])), b[width..])
    else if code == 3 then
      match LoadLZFString(b)
      case Throw => Throw
      case Ok(s, rest) => Ok(CreateString(s), rest)
    else Throw
  }

  /** GetDecodedString. */
  function Text(o: QObject): QString
    requires o.Raw? || o.Integer?
  {
    if o.Raw? then o.text else Decimal(o.value)
  }

  /** A string inside a container. */
  function LoadElement(b: seq<byte>): (r: Parsed<QString>)
    ensures r.Ok? ==> |r.rest| < |b|
  {
    match LoadLength(b)
    case Throw => Throw
    case Ok(Plain(n), rest) => LoadString(rest, n)
    case Ok(Special(code), rest) =>
      match LoadSpecialStringObject(rest, code)
      case Throw => Throw
      case Ok(o, rest) => Ok(Text(o), rest)
  }

  function LoadStringObject(b: seq<byte>): (r: Parsed<QObject>)
    ensures r.Ok? ==> |r.rest| < |b|
  {
    match LoadLength(b)
    case Throw => Throw
    case Ok(Special(code), rest) => LoadSpecialStringObject(rest, code)
    case Ok(Plain(n), rest) =>
      match LoadString(rest, n)
      case Throw => Throw
      case Ok(s, rest) => Ok(CreateString(s), rest)
  }

  /** n elements, in order. */
  function LoadElements(b: seq<byte>, n: nat): (r: Parsed<seq<QString>>)
    ensures r.Ok? ==> |r.value| == n && |r.rest| + n <= |b|
    decreases n
  {
    if n == 0 then Ok([], b)
    else match LoadElement(b)
      case Throw => Throw
      case Ok(s, rest) =>
        match LoadElements(rest, n - 1)
        case Throw => Throw
        case Ok(ss, rest) => Ok([s] + ss, rest)
  }

  /** unordered_map::insert keeps the first value of a repeated key. */
  function FieldsOf(kvs: seq<QString>): map<QString, QString>
  {
    if |kvs| < 2 then map[]
    else FieldsOf(kvs[2..])[kvs[0] := kvs[1]]
  }

  /** The first value of a key counts. */
  lemma {:induction false} FirstValue(kvs: seq<QString>, i: nat)
    requires 2 * i + 1 < |kvs| && forall j :: 0 <= j < i ==> kvs[2 * j] != kvs[2 * i]
    ensures kvs[2 * i] in FieldsOf(kvs) && FieldsOf(kvs)[kvs[2 * i]] == kvs[2 * i + 1]
    decreases i
  {
    if i > 0 {
      var rest := kvs[2..];
      assert kvs[2 * 0] != kvs[2 * i];
      forall j | 0 <= j < i - 1 ensures rest[2 * j] != rest[2 * (i - 1)] {
        assert rest[2 * j] == kvs[2 * (j + 1)];
      }
      FirstValue(rest, i - 1);
    }
  }

  function MembersOf(ss: seq<QString>): set<QString> { set s | s in ss }

  function LoadCounted(b: seq<byte>, pairs: bool): (r: Parsed<seq<QString>>)
    ensures r.Ok? ==> |r.rest| < |b|
  {
    match LoadLength(b)
    case Throw => Throw
    case Ok(Special(_), _) => Throw
    case Ok(Plain(n), rest) => LoadElements(rest, if pairs then 2 * n else n)
  }

  /** The encodings this program writes; any other type is an invalid object. */
  function LoadObject(b: seq<byte>, tag: byte): (r: Parsed<QObject>)
    ensures r.Ok? ==> |r.rest| <= |b|
  {
    if tag == TYPE_STRING then LoadStringObject(b)
    else if tag == TYPE_LIST then
      match LoadCounted(b, false) case Throw => Throw case Ok(ss, rest) => Ok(List(ss), rest)
    else if tag == TYPE_SET then
      match LoadCounted(b, false) case Throw => Throw case Ok(ss, rest) => Ok(Set(MembersOf(ss)), rest)
    else if tag == TYPE_HASH then
      match LoadCounted(b, true) case Throw => Throw case Ok(ss, rest) => Ok(Hash(FieldsOf(ss)), rest)
    else Ok(Invalid, b)
  }

  // ----- saving -----

  function LengthBytes(n: nat): (b: seq<byte>)
    requires n < MAX_LENGTH
  {
    if n < 64 then [n]
    else if n < 0x4000 then [64 + n / 256, n % 256]
    else [128] + ToBE4(n)
  }

  /** 8, 16 or 32 bits for small nonnegative values, otherwise the decimal text. */
  function IntegerBytes(v: int): seq<byte>
    requires |Decimal(v)| < MAX_LENGTH
  {
    if 0 <= v < 0x80 then [192] + ToLE(v, 1)
    else if 0 <= v < 0x8000 then [193] + ToLE(v, 2)
    else if 0 <= v < 0x8000_0000 then [194] + ToLE(v, 4)
    else LengthBytes(|Decimal(v)|) + Decimal(v)
  }

  predicate IsShortInteger(s: QString) { |s| < 10 && Strtol(s).Some? }

  ghost predicate IsPacked(b: seq<byte>, s: QString, packed: seq<byte>)
    requires |s| < MAX_LENGTH
  {
    && 20 <= |s| && 0 < |packed| < MAX_LENGTH
    && Lzf.Expand(packed, [], |s|) == Lzf.Done(s)
    && b == [195] + LengthBytes(|packed|) + LengthBytes(|s|) + packed
  }

  /** b is what SaveString may write for s: which compressed form, if any, depends on stale memory. */
  ghost predicate IsSaved(b: seq<byte>, s: QString) {
    && |s| < MAX_LENGTH
    && if IsShortInteger(s)
       then |Decimal(Strtol(s).value)| < MAX_LENGTH && b == IntegerBytes(Strtol(s).value)
       else b == LengthBytes(|s|) + s || exists packed :: IsPacked(b, s, packed)
  }

  /** Integers of fewer than ten characters are saved as such, and all other strings of fewer than twenty as they
      are. */
  lemma SavedForms(b: seq<byte>, s: QString)
    requires IsSaved(b, s) && |s| < 20
    ensures if 0 < |s| < 10 && Parse(s).Some?
            then |Decimal(Parse(s).value)| < MAX_LENGTH && b == IntegerBytes(Parse(s).value)
            else b == LengthBytes(|s|) + s
  {
    hide Parse, LengthBytes, IntegerBytes, Decimal;
    if 0 < |s| < 10 && Parse(s).Some? {
      ShortIntegerRange(s);
    }
  }

  /** The parts of a saved container, one per element. */
  ghost predicate AreSaved(parts: seq<seq<byte>>, ss: seq<QString>) {
    |parts| == |ss| && forall i :: 0 <= i < |ss| ==> IsSaved(parts[i], ss[i])
  }

  /** Keys and values in turn. */
  function Interleave(keys: seq<QString>, fields: map<QString, QString>): (kvs: seq<QString>)
    requires forall k :: k in keys ==> k in fields
    ensures |kvs| == 2 * |keys|
  {
    if keys == [] then [] else [keys[0], fields[keys[0]]] + Interleave(keys[1..], fields)
  }

  ghost predicate IsSavedList(b: seq<byte>, items: seq<QString>) {
    |items| < MAX_LENGTH && exists parts :: AreSaved(parts, items) && b == LengthBytes(|items|) + Join(parts)
  }

  /** The members go out in any order. */
  ghost predicate IsSavedSet(b: seq<byte>, members: set<QString>) {
    && |members| < MAX_LENGTH
    && exists ss, parts :: |ss| == |members| && MembersOf(ss) == members && AreSaved(parts, ss)
                           && b == LengthBytes(|members|) + Join(parts)
  }

  /** The fields go out in any order, each key followed by its value. */
  ghost predicate IsSavedHash(b: seq<byte>, fields: map<QString, QString>) {
    && |fields| < MAX_LENGTH
    && exists keys, parts :: |keys| == |fields| && MembersOf(keys) == fields.Keys
                             && AreSaved(parts, Interleave(keys, fields))
                             && b == LengthBytes(|fields|) + Join(parts)
  }

  /** b is what SaveObject may write for o. */
  ghost predicate IsSavedObject(b: seq<byte>, o: QObject) {
    match o
    case Invalid => b == []
    case Raw(s) => IsSaved(b, s)
    case Integer(v) => IsSaved(b, Decimal(v))
    case List(items) => IsSavedList(b, items)
    case Set(members) => IsSavedSet(b, members)
    case Hash(fields) => IsSavedHash(b, fields)
  }

  function TypeOf(o: QObject): byte
    requires !o.Invalid?
  {
    match o
    case Raw(_) => TYPE_STRING
    case Integer(_) => TYPE_STRING
    case List(_) => TYPE_LIST
    case Set(_) => TYPE_SET
    case Hash(_) => TYPE_HASH
  }

  // ----- the loader inverts the saver -----

  lemma LoadLengthBytes(n: nat, tail: seq<byte>)
    requires n < MAX_LENGTH
    ensures LoadLength(LengthBytes(n) + tail) == Ok(Plain(n), tail)
  {
    var b := LengthBytes(n) + tail;
    if n < 64 {
      assert b[1..] == tail;
    } else if n < 0x4000 {
      assert b[2..] == tail;
    } else {
      assert b[5..] == tail;
      assert b[1..5] == ToBE4(n);
      FromToBE4(n);
    }
  }

  /** No shorter form holds the length. */
  lemma LengthIsShortest(n: nat, b: seq<byte>)
    requires n < MAX_LENGTH && LoadLength(b) == Ok(Plain(n), [])
    ensures |LengthBytes(n)| <= |b|
  {
  }

  /** Lengths and integers on either side of where their forms change. */
  lemma FormsAre()
    ensures LengthBytes(63) == [63] && LengthBytes(64) == [64, 64] && LengthBytes(0x3fff) == [127, 255]
    ensures LengthBytes(0x4000) == [128, 0, 0, 64, 0]
  {
  }

  lemma IntegerFormsAre()
    ensures IntegerBytes(127) == [192, 127] && IntegerBytes(128) == [193, 128, 0]
    ensures IntegerBytes(0x7fff) == [193, 255, 127] && IntegerBytes(0x8000) == [194, 0, 128, 0, 0]
    ensures IntegerBytes(-7) == [2, 45, 55]
  {
    assert DecimalNat(7) == [55];
    assert ToLE(127, 1) == [127] + ToLE(0, 0);
    assert ToLE(128, 2) == [128] + ToLE(0, 1) && ToLE(0, 1) == [0] + ToLE(0, 0);
    assert ToLE(0x7fff, 2) == [255] + ToLE(127, 1);
    assert ToLE(0x8000, 4) == [0] + ToLE(128, 3) && ToLE(128, 3) == [128] + ToLE(0, 2);
    assert ToLE(0, 2) == [0] + ToLE(0, 1);
  }

  lemma LoadTailString(s: QString, tail: seq<byte>)
    ensures LoadString(s + tail, |s|) == Ok(s, tail)
  {
    assert (s + tail)[..|s|] == s && (s + tail)[|s|..] == tail;
  }

  /** What a string inside a container, and at top level, becomes. */
  function Canonized(s: QString): QString {
    match Strtol(s) case Some(v) => Decimal(v) case None => s
  }

  lemma LoadPlain(s: QString, tail: seq<byte>)
    requires |s| < MAX_LENGTH
    ensures LoadElement(LengthBytes(|s|) + s + tail) == Ok(s, tail)
    ensures LoadStringObject(LengthBytes(|s|) + s + tail) == Ok(CreateString(s), tail)
  {
    assert LengthBytes(|s|) + s + tail == LengthBytes(|s|) + (s + tail);
    LoadLengthBytes(|s|, s + tail);
    LoadTailString(s, tail);
  }

  lemma LoadPacked(b: seq<byte>, s: QString, packed: seq<byte>, tail: seq<byte>)
    requires |s| < MAX_LENGTH && IsPacked(b, s, packed)
    ensures LoadElement(b + tail) == Ok(Text(CreateString(s)), tail)
    ensures LoadStringObject(b + tail) == Ok(CreateString(s), tail)
  {
    hide LengthBytes, Lzf.Expand, Strtol, LoadLZFString, CreateString;
    var rest := LengthBytes(|packed|) + (LengthBytes(|s|) + (packed + tail));
    PackedBytes(LengthBytes(|packed|), LengthBytes(|s|), packed, tail);
    LoadPackedText(s, packed, tail);
    PackedTag(rest);
    assert LoadSpecialStringObject(rest, 3) == Ok(CreateString(s), tail);
  }

  lemma PackedBytes(m: seq<byte>, n: seq<byte>, packed: seq<byte>, tail: seq<byte>)
    ensures [195] + m + n + packed + tail == [195] + (m + (n + (packed + tail)))
  {
  }

  lemma PackedTag(rest: seq<byte>)
    ensures LoadLength([195] + rest) == Ok(Special(3), rest)
  {
    AppendPrefix([195], rest);
  }

  lemma LoadPackedText(s: QString, packed: seq<byte>, tail: seq<byte>)
    requires 20 <= |s| < MAX_LENGTH && 0 < |packed| < MAX_LENGTH
    requires Lzf.Expand(packed, [], |s|) == Lzf.Done(s)
    ensures LoadLZFString(LengthBytes(|packed|) + (LengthBytes(|s|) + (packed + tail))) == Ok(s, tail)
  {
    LoadLengthBytes(|packed|, LengthBytes(|s|) + (packed + tail));
    LoadLengthBytes(|s|, packed + tail);
    AppendPrefix(packed, tail);
    hide LengthBytes, Lzf.Expand;
    assert s + Zeros(0) == s;
  }

  lemma LoadSmallInteger(v: nat, code: nat, width: nat, tail: seq<byte>)
    requires code <= 2 && width == (if code == 0 then 1 else if code == 1 then 2 else 4) && v < Span(width)
    ensures LoadElement([192 + code] + ToLE(v, width) + tail) == Ok(Decimal(v), tail)
    ensures LoadStringObject([192 + code] + ToLE(v, width) + tail) == Ok(Integer(v), tail)
  {
    FromToLE(v, width);
    hide ToLE, FromLE, Span, DecimalNat;
    var rest := ToLE(v, width) + tail;
    AppendAssociates([192 + code], ToLE(v, width), tail);
    AppendPrefix([192 + code], rest);
    AppendPrefix(ToLE(v, width), tail);
    assert LoadLength([192 + code] + rest) == Ok(Special(code), rest);
    assert LoadSpecialStringObject(rest, code) == Ok(Integer(v), tail);
  }

  lemma LoadInteger(v: int, tail: seq<byte>)
    requires INT64_MIN <= v <= INT64_MAX
    ensures |Decimal(v)| < MAX_LENGTH
    ensures LoadElement(IntegerBytes(v) + tail) == Ok(Decimal(v), tail)
    ensures LoadStringObject(IntegerBytes(v) + tail) == Ok(Integer(v), tail)
  {
    DecimalIsInteger(v);
    assert Span(1) == 256 && Span(2) == 0x1_0000 && Span(4) == 0x1_0000_0000;
    if 0 <= v < 0x80 {
      LoadSmallInteger(v, 0, 1, tail);
    } else if 0 <= v < 0x8000 {
      LoadSmallInteger(v, 1, 2, tail);
    } else if 0 <= v < 0x8000_0000 {
      LoadSmallInteger(v, 2, 4, tail);
    } else {
      LoadPlain(Decimal(v), tail);
    }
  }

  /** A saved top-level string is read in full and nothing more; its text is canonized. */
  lemma LoadSavedString(b: seq<byte>, s: QString, tail: seq<byte>)
    requires IsSaved(b, s)
    ensures var r := LoadStringObject(b + tail);
            r.Ok? && r.rest == tail && (r.value.Raw? || r.value.Integer?) && Text(r.value) == Canonized(s)
  {
    if IsShortInteger(s) {
      LoadInteger(Strtol(s).value, tail);
    } else if b == LengthBytes(|s|) + s {
      LoadPlain(s, tail);
    } else {
      var packed :| IsPacked(b, s, packed);
      LoadPacked(b, s, packed, tail);
    }
  }

  /** A saved element is read in full and nothing more; only short ones, and compressed ones, are canonized. */
  lemma LoadSavedElement(b: seq<byte>, s: QString, tail: seq<byte>)
    requires IsSaved(b, s)
    ensures var r := LoadElement(b + tail);
            && r.Ok? && r.rest == tail
            && (r.value == s || r.value == Canonized(s))
            && (|s| < 10 ==> r.value == Canonized(s))
            && (10 <= |s| < 20 ==> r.value == s)
  {
    if IsShortInteger(s) {
      LoadInteger(Strtol(s).value, tail);
    } else if b == LengthBytes(|s|) + s {
      LoadPlain(s, tail);
    } else {
      var packed :| IsPacked(b, s, packed);
      LoadPacked(b, s, packed, tail);
    }
  }

  /** Strings that are no integers of at most 20 characters and 64 bits, or are spelled the way these are printed. */
  predicate Faithful(s: QString) {
    0 < |s| <= 20 && Parse(s).Some? && -0x8000_0000_0000_0000 <= Parse(s).value <= 0x7FFF_FFFF_FFFF_FFFF ==>
      Canonical(s)
  }

  lemma CanonizedIsSame(s: QString)
    ensures Canonized(s) == s <==> Faithful(s)
  {
    if Strtol(s).Some? {
      RendersBack(s);
    }
  }

  predicate SafeElement(s: QString) { Faithful(s) || 10 <= |s| < 20 }

  lemma SafeIsSame(s: QString)
    requires SafeElement(s)
    ensures Canonized(s) == s || 10 <= |s| < 20
  {
    CanonizedIsSame(s);
  }

  predicate AreSafe(ss: seq<QString>) { forall i :: 0 <= i < |ss| ==> SafeElement(ss[i]) }

  lemma {:induction false} LoadJoined(parts: seq<seq<byte>>, ss: seq<QString>, tail: seq<byte>)
    requires AreSaved(parts, ss)
    ensures var r := LoadElements(Join(parts) + tail, |ss|);
            && r.Ok? && r.rest == tail && |r.value| == |ss|
            && (AreSafe(ss) ==> r.value == ss)
    decreases |ss|
  {
    hide LoadElements, LoadElement, IsSaved, Join, SafeElement, Faithful, Canonized;
    JoinFirst(parts, tail);
    if ss == [] {
      FirstElement(tail, 0);
    } else {
      var rest := Join(parts[1..]) + tail;
      LoadSavedElement(parts[0], ss[0], rest);
      if AreSafe(ss) { SafeIsSame(ss[0]); }
      FirstElement(parts[0] + rest, |ss|);
      LoadJoined(parts[1..], ss[1..], tail);
      assert ss == [ss[0]] + ss[1..];
    }
  }

  lemma JoinFirst(parts: seq<seq<byte>>, tail: seq<byte>)
    ensures Join(parts) + tail == if parts == [] then tail else parts[0] + (Join(parts[1..]) + tail)
  {
  }

  lemma FirstElement(b: seq<byte>, n: nat)
    ensures n == 0 ==> LoadElements(b, n) == Ok([], b)
    ensures n > 0 && LoadElement(b).Ok? && LoadElements(LoadElement(b).rest, n - 1).Ok? ==>
              LoadElements(b, n) == var more := LoadElements(LoadElement(b).rest, n - 1);
                                    Ok([LoadElement(b).value] + more.value, more.rest)
  {
  }

  lemma LoadSavedCounted(n: nat, parts: seq<seq<byte>>, ss: seq<QString>, pairs: bool, tail: seq<byte>)
    requires n < MAX_LENGTH && |ss| == (if pairs then 2 * n else n)
    requires AreSaved(parts, ss)
    ensures var r := LoadCounted(LengthBytes(n) + Join(parts) + tail, pairs);
            && r.Ok? && r.rest == tail && |r.value| == |ss|
            && (AreSafe(ss) ==> r.value == ss)
  {
    assert LengthBytes(n) + Join(parts) + tail == LengthBytes(n) + (Join(parts) + tail);
    LoadLengthBytes(n, Join(parts) + tail);
    LoadJoined(parts, ss, tail);
  }

  lemma {:induction false} FieldsOfInterleaved(keys: seq<QString>, fields: map<QString, QString>)
    requires forall k :: k in keys ==> k in fields
    ensures FieldsOf(Interleave(keys, fields)) == map k | k in keys :: fields[k]
    decreases |keys|
  {
    if keys != [] {
      var kvs := Interleave(keys, fields);
      assert kvs[2..] == Interleave(keys[1..], fields);
      FieldsOfInterleaved(keys[1..], fields);
      assert forall k :: k in keys <==> k == keys[0] || k in keys[1..];
    }
  }

  lemma {:induction false} InterleavedElements(keys: seq<QString>, fields: map<QString, QString>, i: nat)
    requires forall k :: k in keys ==> k in fields
    requires i < 2 * |keys|
    ensures var kv := Interleave(keys, fields)[i]; kv in fields.Keys || kv in fields.Values
    decreases |keys|
  {
    assert keys[0] in fields;
    if i >= 2 {
      InterleavedElements(keys[1..], fields, i - 2);
    }
  }

  /** The strings of a value. */
  predicate SafeObject(o: QObject) {
    match o
    case Invalid => false
    case Raw(s) => Faithful(s)
    case Integer(v) => INT64_MIN <= v <= INT64_MAX
    case List(items) => forall i :: 0 <= i < |items| ==> SafeElement(items[i])
    case Set(members) => forall s :: s in members ==> SafeElement(s)
    case Hash(fields) => forall k :: k in fields ==> SafeElement(k) && SafeElement(fields[k])
  }

  /** Strings are the same value when they have the same text, however they are kept in memory. */
  predicate SameValue(a: QObject, b: QObject) {
    if (a.Raw? || a.Integer?) && (b.Raw? || b.Integer?) then Text(a) == Text(b) else a == b
  }

  /** Loading uses up what was saved, whichever of the possible encodings was written and whatever follows it, and
      gives the same value when the strings are safe. */
  lemma LoadSavedObject(b: seq<byte>, o: QObject, tail: seq<byte>)
    requires IsSavedObject(b, o) && !o.Invalid?
    ensures var r := LoadObject(b + tail, TypeOf(o));
            r.Ok? && r.rest == tail && !r.value.Invalid? && (SafeObject(o) ==> SameValue(r.value, o))
  {
    match o
    case Raw(s) =>
      LoadSavedString(b, s, tail);
      CanonizedIsSame(s);
    case Integer(v) =>
      LoadSavedString(b, Decimal(v), tail);
      if SafeObject(o) { DecimalIsInteger(v); }
    case List(items) =>
      var parts :| AreSaved(parts, items) && b == LengthBytes(|items|) + Join(parts);
      LoadSavedCounted(|items|, parts, items, false, tail);
    case Set(members) =>
      var ss, parts :| |ss| == |members| && MembersOf(ss) == members && AreSaved(parts, ss)
                       && b == LengthBytes(|members|) + Join(parts);
      if SafeObject(o) {
        forall i | 0 <= i < |ss| ensures SafeElement(ss[i]) {
          assert ss[i] in MembersOf(ss);
        }
      }
      LoadSavedCounted(|ss|, parts, ss, false, tail);
    case Hash(fields) =>
      var keys, parts :| |keys| == |fields| && MembersOf(keys) == fields.Keys
                         && AreSaved(parts, Interleave(keys, fields)) && b == LengthBytes(|fields|) + Join(parts);
      LoadSavedHash(keys, parts, fields, tail);
  }

  lemma LoadSavedHash(keys: seq<QString>, parts: seq<seq<byte>>, fields: map<QString, QString>, tail: seq<byte>)
    requires |keys| == |fields| < MAX_LENGTH && MembersOf(keys) == fields.Keys
    requires AreSaved(parts, Interleave(keys, fields))
    ensures var r := LoadObject(LengthBytes(|fields|) + Join(parts) + tail, TYPE_HASH);
            r.Ok? && r.rest == tail && r.value.Hash? && (SafeObject(Hash(fields)) ==> r.value == Hash(fields))
  {
    hide LengthBytes, Join, IsSaved, LoadElements;
    var kvs := Interleave(keys, fields);
    if SafeObject(Hash(fields)) {
      forall i | 0 <= i < |kvs| ensures SafeElement(kvs[i]) {
        InterleavedElements(keys, fields, i);
      }
    }
    LoadSavedCounted(|keys|, parts, kvs, true, tail);
    FieldsOfInterleaved(keys, fields);
    assert forall k :: k in keys <==> k in MembersOf(keys);
    assert FieldsOf(kvs) == fields;
  }

  /** What is not as a saver writes it: a string that ends early is taken as far as it goes, unless nothing is left of
      it; packed bytes that do not expand give an empty string and are not skipped; those that expand to less are
      padded; and other special codes are refused. */
  lemma LoadOdd(n: nat, s: QString, packed: seq<byte>, raw: nat, tail: seq<byte>, code: nat)
    requires |s| < n < MAX_LENGTH && 0 < |packed| < MAX_LENGTH && raw < MAX_LENGTH && 3 < code < 64
    ensures LoadElement(LengthBytes(n) + s) == if s == [] then Throw else Ok(s, [])
    ensures var r := LoadElement([195] + LengthBytes(|packed|) + LengthBytes(raw) + packed + tail);
            match Lzf.Expand(packed, [], raw)
            case Failed(_) => r == Ok([], packed + tail)
            case Done(out) => 0 < |out| <= raw ==> r == Ok(Canonized(out + Zeros(raw - |out|)), tail)
    ensures LoadElement([(192 + code) as byte] + tail) == Throw
  {
    LoadShort(n, s);
    LoadOddPacked(packed, raw, tail);
    LoadSpecialCode(code, tail);
  }

  lemma LoadShort(n: nat, s: QString)
    requires |s| < n < MAX_LENGTH
    ensures LoadElement(LengthBytes(n) + s) == if s == [] then Throw else Ok(s, [])
  {
    hide LengthBytes, LoadLength;
    LoadLengthBytes(n, s);
  }

  lemma LoadSpecialCode(code: nat, tail: seq<byte>)
    requires 3 < code < 64
    ensures LoadElement([(192 + code) as byte] + tail) == Throw
  {
    var b := [(192 + code) as byte] + tail;
    assert b[0] == 192 + code;
    assert LoadLength(b) == Ok(Special(code), b[1..]);
  }

  lemma NoText()
    ensures CreateString([]) == Raw([])
  {
  }

  lemma LoadOddPacked(packed: seq<byte>, raw: nat, tail: seq<byte>)
    requires 0 < |packed| < MAX_LENGTH && raw < MAX_LENGTH
    ensures var r := LoadElement([195] + LengthBytes(|packed|) + LengthBytes(raw) + packed + tail);
            match Lzf.Expand(packed, [], raw)
            case Failed(_) => r == Ok([], packed + tail)
            case Done(out) => 0 < |out| <= raw ==> r == Ok(Canonized(out + Zeros(raw - |out|)), tail)
  {
    hide LengthBytes, Lzf.Expand, LoadLength, Strtol, Decimal;
    NoText();
    var rest := LengthBytes(|packed|) + (LengthBytes(raw) + (packed + tail));
    PackedBytes(LengthBytes(|packed|), LengthBytes(raw), packed, tail);
    PackedTag(rest);
    LoadLengthBytes(|packed|, LengthBytes(raw) + (packed + tail));
    LoadLengthBytes(raw, packed + tail);
    AppendPrefix(packed, tail);
    assert Unpack(packed + tail, |packed|, raw) == match Lzf.Expand(packed, [], raw)
      case Failed(_) => Ok([], packed + tail)
      case Done(out) =>
        if out == [] || |out| > raw then Ok([], packed + tail) else Ok(out + Zeros(raw - |out|), tail);
  }

  /** A string survives saving and loading exactly when it is faithful. */
  lemma StringSurvives(b: seq<byte>, s: QString, tail: seq<byte>)
    requires IsSaved(b, s)
    ensures LoadStringObject(b + tail).Ok?
    ensures SameValue(LoadStringObject(b + tail).value, Raw(s)) <==> Faithful(s)
  {
    LoadSavedString(b, s, tail);
    CanonizedIsSame(s);
  }

  /** An element also survives when it is too long for the integer form and written as it is: packed strings are tested
      for integers, and with 20 bytes they can pass. */
  lemma ElementSurvives(b: seq<byte>, s: QString, tail: seq<byte>)
    requires IsSaved(b, s)
    ensures LoadElement(b + tail) == Ok(s, tail) <==> Faithful(s) || (|s| >= 10 && b == LengthBytes(|s|) + s)
  {
    CanonizedIsSame(s);
    if IsShortInteger(s) {
      LoadInteger(Strtol(s).value, tail);
    } else if b == LengthBytes(|s|) + s {
      LoadPlain(s, tail);
    } else {
      var packed :| IsPacked(b, s, packed);
      LoadPacked(b, s, packed, tail);
    }
  }

  function Zeroes(n: nat): seq<byte> { seq(n, _ => ZERO) }

  lemma {:induction false} ZeroesAreZero(n: nat)
    requires n > 0
    ensures Digits(Zeroes(n), 8) == Some(0)
  {
    if n > 1 {
      assert Zeroes(n)[..n - 1] == Zeroes(n - 1);
      ZeroesAreZero(n - 1);
    }
  }

  /** 8 in octal, with 20 digits. */
  function PaddedEight(): QString { Zeroes(18) + [49, 48] }

  /** Its packed form: two literals, sixteen more zeroes, two literals. */
  function PackedEight(): seq<byte> { [1, 48, 48, 224, 7, 0, 1, 49, 48] }

  /** As an element 00000000000000000010 stays what it is when written plainly, and comes back as 8 when packed. */
  lemma PackedIsRewritten(tail: seq<byte>)
    ensures var s, b := PaddedEight(), [195, 9, 20] + PackedEight();
            && |s| == 20 && IsSaved(b, s) && LoadElement(b + tail) == Ok([56], tail)
            && IsSaved(LengthBytes(20) + s, s) && LoadElement(LengthBytes(20) + s + tail) == Ok(s, tail)
  {
    hide Lzf.Expand, Strtol, Zeroes, LoadElement, LengthBytes;
    PaddedOctal();
    EightIsPacked();
    LoadPacked([195, 9, 20] + PackedEight(), PaddedEight(), PackedEight(), tail);
    LoadPlain(PaddedEight(), tail);
  }

  lemma EightIsPacked()
    ensures |PaddedEight()| == 20 && IsPacked([195, 9, 20] + PackedEight(), PaddedEight(), PackedEight())
  {
    hide Lzf.Expand;
    PaddedPacks();
    assert [195] + LengthBytes(9) + LengthBytes(20) == [195, 9, 20];
  }

  lemma PaddedOctal()
    ensures Strtol(PaddedEight()) == Some(8)
  {
    var s := PaddedEight();
    ZeroesAreZero(18);
    assert s[..19][..18] == Zeroes(18) && s[..19] == Zeroes(18) + [49];
    assert Digits(s[..19], 8) == Some(1);
    assert Digits(s, 8) == Some(8);
    assert SkipSpaces(s) == s;
  }

  lemma PaddedPacks()
    ensures Lzf.Expand(PackedEight(), [], 20) == Lzf.Done(PaddedEight())
  {
    hide Lzf.Expand;
    var s := PaddedEight();
    Lzf.ExpandNothing(s, 20);
    Lzf.ExpandRun([], s, 0, 2, 20);
    var a := [] + ([1] + s[0..2]);
    Lzf.ExpandRef(a, s, 2, 0, 16, 20);
    var c := a + Lzf.RefBytes(0, 16);
    Lzf.ExpandRun(c, s, 18, 2, 20);
    assert c + ([1] + s[18..20]) == PackedEight();
    assert s[..20] == s;
  }

  /** What the saver writes for an integer is read back as that integer, except for the most negative one, whose
      negation wraps around: it becomes a minus sign. */
  lemma IntegerSurvives(v: int, tail: seq<byte>)
    requires INT64_MIN <= v <= INT64_MAX
    ensures |Decimal(v)| < MAX_LENGTH
    ensures var b := if v == INT64_MIN then [1, MINUS] else IntegerBytes(v);
            LoadElement(b + tail) == Ok(Decimal(v), tail) <==> v != INT64_MIN
  {
    LoadInteger(v, tail);
    if v == INT64_MIN {
      LoadPlain([MINUS], tail);
      assert LengthBytes(1) + [MINUS] == [1, MINUS];
      DecimalNatSpelling(-v);
    }
  }

  /** The octal spelling 010 is saved as the integer 8 and comes back as the text 8. */
  lemma OctalIsRewritten(tail: seq<byte>)
    ensures IsSaved([192, 8], [48, 49, 48])
    ensures LoadElement([192, 8] + tail) == Ok([56], tail)
  {
    var s: QString := [48, 49, 48];
    assert s[..2][..1] == [48] && s[..2] == [48, 49];
    assert Digits(s[..2], 8) == Some(1);
    assert Digits(s, 8) == Some(8);
    assert SkipSpaces(s) == s;
    assert Strtol(s) == Some(8);
    assert ToLE(8, 1) == [8] + ToLE(0, 0);
    assert IntegerBytes(8) == [192, 8];
    LoadSavedElement([192, 8], s, tail);
  }
}
