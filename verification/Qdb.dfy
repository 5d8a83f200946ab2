/** The snapshot saver and loader of QedisCore/QDB.cc, with DUMP and RESTORE built on them. */
module Qdb {
  import opened Bytes
  import opened Options
  import opened Integers
  import opened QdbFormat
  import Lzf

  /** The strings and counts the format can hold: SaveLength asserts 32 bits. */
  predicate Storable(o: QObject) {
    match o
    case Invalid => false
    case Raw(s) => |s| < MAX_LENGTH
    case Integer(v) => INT64_MIN <= v <= INT64_MAX
    case List(items) => |items| < MAX_LENGTH && forall s :: s in items ==> |s| < MAX_LENGTH
    case Set(members) => |members| < MAX_LENGTH && forall s :: s in members ==> |s| < MAX_LENGTH
    case Hash(fields) =>
      |fields| < MAX_LENGTH && forall k :: k in fields ==> |k| < MAX_LENGTH && |fields[k]| < MAX_LENGTH
  }

  class QDBSaver {
    var qdb: seq<byte>

    constructor ()
      ensures qdb == []
    {
      qdb := [];
    }

    method Write(b: seq<byte>)
      modifies this
      ensures qdb == old(qdb) + b
    {
      qdb := qdb + b;
    }

    method SaveType(o: QObject)
      requires !o.Invalid?
      modifies this
      ensures qdb == old(qdb) + [TypeOf(o)]
    {
      match o
      case Raw(_) => Write([TYPE_STRING]);
      case Integer(_) => Write([TYPE_STRING]);
      case List(_) => Write([TYPE_LIST]);
      case Set(_) => Write([TYPE_SET]);
      case Hash(_) => Write([TYPE_HASH]);
    }

    method SaveLength(len: nat)
      requires len < MAX_LENGTH
      modifies this
      ensures qdb == old(qdb) + LengthBytes(len)
    {
      if len < 64 {
        Write([len]);
      } else if len < 0x4000 {
        var high: byte := 64 + len / 256;
        var low: byte := len % 256;
        Write([high, low]);
      } else {
        Write([128]);
        Write(ToBE4(len));
      }
    }

    method SaveInteger(v: int)
      requires INT64_MIN <= v <= INT64_MAX
      modifies this
      ensures |Decimal(v)| < MAX_LENGTH
      ensures qdb == old(qdb) + if v == INT64_MIN then [1, MINUS] else IntegerBytes(v)
    {
      DecimalIsInteger(v);
      if 0 <= v < 0x8000_0000 {
        SaveSmallInteger(v);
      } else {
        var buf := Number2Str(v);
        hide LengthBytes, Decimal;
        SaveLength(|buf|);
        Write(buf);
        AppendAssociates(old(qdb), LengthBytes(|buf|), buf);
      }
    }

    method SaveSmallInteger(v: int)
      requires 0 <= v < 0x8000_0000 && |Decimal(v)| < MAX_LENGTH
      modifies this
      ensures qdb == old(qdb) + IntegerBytes(v)
    {
      var code, width := 2, 4;
      if v < 0x80 {
        code, width := 0, 1;
      } else if v < 0x8000 {
        code, width := 1, 2;
      }
      assert IntegerBytes(v) == [192 + code] + ToLE(v, width);
      hide *;
      Write([192 + code]);
      Write(ToLE(v, width));
      AppendAssociates(old(qdb), [192 + code], ToLE(v, width));
    }

    /** Strings the compressor cannot shrink by four bytes are not written; neither are short ones. */
    method SaveLZFString(s: QString) returns (ok: bool, ghost b: seq<byte>)
      requires |s| < MAX_LENGTH
      modifies this
      ensures if ok then qdb == old(qdb) + b && exists packed :: IsPacked(b, s, packed) else qdb == old(qdb)
    {
      b := [];
      if |s| < 20 {
        return false, b;
      }
      var outlen := |s| - 4;
      var input := new byte[|s|](i requires 0 <= i < |s| => s[i]);
      var outBuf := new byte[outlen + 1];
      var htab := new int[Lzf.HSIZE];
      assert input[..|s|] == s;
      var compressLen := Lzf.Compress(input, |s|, outBuf, outlen, htab);
      if compressLen == 0 {
        return false, b;
      }
      ghost var packed := outBuf[..compressLen];
      WritePacked(outBuf[..compressLen], |s|);
      b := [195] + LengthBytes(|packed|) + LengthBytes(|s|) + packed;
      assert IsPacked(b, s, packed);
      ok := true;
    }

    method WritePacked(packed: seq<byte>, rawLen: nat)
      requires |packed| < MAX_LENGTH && rawLen < MAX_LENGTH
      modifies this
      ensures qdb == old(qdb) + ([195] + LengthBytes(|packed|) + LengthBytes(rawLen) + packed)
    {
      hide LengthBytes;
      Write([195]);
      SaveLength(|packed|);
      SaveLength(rawLen);
      Write(packed);
    }

    method SaveString(s: QString) returns (ghost b: seq<byte>)
      requires |s| < MAX_LENGTH
      modifies this
      ensures IsSaved(b, s) && qdb == old(qdb) + b
    {
      if |s| < 10 {
        var lVal := Strtol(s);
        if lVal.Some? {
          ShortIntegerRange(s);
          DecimalIsInteger(lVal.value);
          b := IntegerBytes(lVal.value);
          SaveInteger(lVal.value);
          return;
        }
      }
      var ok;
      ok, b := SaveLZFString(s);
      if !ok {
        b := LengthBytes(|s|) + s;
        SaveLength(|s|);
        Write(s);
      }
    }

    method SaveObject(o: QObject) returns (ghost b: seq<byte>)
      requires Storable(o)
      modifies this
      ensures IsSavedObject(b, o) && qdb == old(qdb) + b
    {
      match o
      case Raw(s) => b := SaveString(s);
      case Integer(v) =>
        DecimalIsInteger(v);
        b := SaveString(Decimal(v));
      case List(items) =>
        b := SaveList(items);
      case Set(members) => b := SaveSet(members);
      case Hash(fields) => b := SaveHash(fields);
    }

    method SaveAll(ss: seq<QString>) returns (ghost parts: seq<seq<byte>>)
      requires forall s :: s in ss ==> |s| < MAX_LENGTH
      modifies this
      ensures AreSaved(parts, ss) && qdb == old(qdb) + Join(parts)
    {
      hide Join, IsSaved, AreSaved;
      parts := [];
      NothingSaved(qdb);
      assert ss[..0] == [];
      for i := 0 to |ss|
        invariant AreSaved(parts, ss[..i]) && qdb == old(qdb) + Join(parts)
      {
        ghost var b := SaveString(ss[i]);
        SavedAppend(parts, ss[..i], b, ss[i], old(qdb));
        parts := parts + [b];
        assert ss[..i + 1] == ss[..i] + [ss[i]];
      }
      assert ss[..|ss|] == ss;
    }

    method SaveList(items: seq<QString>) returns (ghost b: seq<byte>)
      requires Storable(List(items))
      modifies this
      ensures IsSavedList(b, items) && qdb == old(qdb) + b
    {
      hide LengthBytes, Join, IsSaved;
      SaveLength(|items|);
      ghost var parts := SaveAll(items);
      b := LengthBytes(|items|) + Join(parts);
      AppendAssociates(old(qdb), LengthBytes(|items|), Join(parts));
    }

    method SaveSet(members: set<QString>) returns (ghost b: seq<byte>)
      requires Storable(Set(members))
      modifies this
      ensures IsSavedSet(b, members) && qdb == old(qdb) + b
    {
      hide LengthBytes, Join, IsSaved;
      SaveLength(|members|);
      var ss := IterationOrder(members);
      assert forall s :: s in ss ==> s in MembersOf(ss);
      ghost var parts := SaveAll(ss);
      b := LengthBytes(|members|) + Join(parts);
      AppendAssociates(old(qdb), LengthBytes(|members|), Join(parts));
    }

    method SaveHash(fields: map<QString, QString>) returns (ghost b: seq<byte>)
      requires Storable(Hash(fields))
      modifies this
      ensures IsSavedHash(b, fields) && qdb == old(qdb) + b
    {
      hide LengthBytes, Join, IsSaved;
      SaveLength(|fields|);
      var keys := IterationOrder(fields.Keys);
      assert forall k :: k in keys ==> k in MembersOf(keys);
      var kvs := Interleave(keys, fields);
      forall s | s in kvs ensures |s| < MAX_LENGTH {
        var i :| 0 <= i < |kvs| && kvs[i] == s;
        InterleavedElements(keys, fields, i);
      }
      ghost var parts := SaveAll(kvs);
      b := LengthBytes(|fields|) + Join(parts);
      AppendAssociates(old(qdb), LengthBytes(|fields|), Join(parts));
    }
  }

  /** The order in which an unordered container is walked: any one, each element once. */
  method IterationOrder(members: set<QString>) returns (ss: seq<QString>)
    ensures |ss| == |members| && MembersOf(ss) == members
  {
    ss := [];
    var rest := members;
    while rest != {}
      invariant rest <= members && |ss| + |rest| == |members| && MembersOf(ss) == members - rest
      decreases rest
    {
      var e :| e in rest;
      rest := rest - {e};
      MembersAppend(ss, e);
      ss := ss + [e];
    }
  }

  lemma NothingSaved(start: seq<byte>)
    ensures AreSaved([], []) && start + Join([]) == start
  {
  }

  /** One more saved string keeps the saved ones in step with the bytes written since start. */
  lemma SavedAppend(parts: seq<seq<byte>>, ss: seq<QString>, b: seq<byte>, s: QString, start: seq<byte>)
    requires AreSaved(parts, ss) && IsSaved(b, s)
    ensures AreSaved(parts + [b], ss + [s])
    ensures start + Join(parts + [b]) == start + Join(parts) + b
  {
    JoinAppend(parts, b);
  }

  lemma MembersAppend(ss: seq<QString>, s: QString)
    ensures MembersOf(ss + [s]) == MembersOf(ss) + {s}
  {
  }

  lemma {:induction false} JoinAppend(parts: seq<seq<byte>>, b: seq<byte>)
    ensures Join(parts + [b]) == Join(parts) + b
  {
    if parts == [] {
      assert [b][1..] == [];
    } else {
      assert (parts + [b])[1..] == parts[1..] + [b];
      JoinAppend(parts[1..], b);
    }
  }

  // ----- loading -----

  class QDBLoader {
    const data: seq<byte>
    var offset: nat

    /** The bytes not read yet. */
    function Rest(): (b: seq<byte>)
      requires offset <= |data|
      reads this
    {
      data[offset..]
    }

    constructor (data: seq<byte>)
      ensures this.data == data && offset == 0
    {
      this.data, offset := data, 0;
    }

    /** None stands for the runtime_error of InputMemoryFile. */
    method LoadByte() returns (r: Option<byte>)
      requires offset <= |data|
      modifies this
      ensures offset <= |data|
      ensures if old(Rest()) == [] then r == None else r == Some(old(Rest())[0]) && Rest() == old(Rest())[1..]
    {
      if offset + 1 > |data| {
        return None;
      }
      r := Some(data[offset]);
      offset := offset + 1;
    }

    method ReadBytes(n: nat) returns (r: Option<seq<byte>>)
      requires offset <= |data|
      modifies this
      ensures offset <= |data|
      ensures if |old(Rest())| < n then r == None
              else r == Some(old(Rest())[..n]) && Rest() == old(Rest())[n..]
    {
      if offset + n > |data| {
        return None;
      }
      r := Some(data[offset..][..n]);
      offset := offset + n;
    }

    method LoadLength() returns (r: Option<Length>)
      requires offset <= |data|
      modifies this
      ensures offset <= |data|
      ensures match QdbFormat.LoadLength(old(Rest()))
              case Throw => r == None
              case Ok(v, rest) => r == Some(v) && Rest() == rest
    {
      ghost var b := Rest();
      var tag := LoadByte();
      if tag == None {
        return None;
      }
      var first: nat := tag.value;
      var low := first % 64;
      match first / 64
      case 0 => r := Some(Plain(low));
      case 1 =>
        var byte2 := LoadByte();
        if byte2 == None {
          return None;
        }
        assert b[1..][0] == b[1] && b[1..][1..] == b[2..];
        r := Some(Plain(low * 256 + byte2.value));
      case 2 =>
        var four := ReadBytes(4);
        if four == None {
          return None;
        }
        assert b[1..][..4] == b[1..5] && b[1..][4..] == b[5..];
        r := Some(Plain(FromBE4(four.value)));
      case _ => r := Some(Special(low));
    }

    method LoadString(n: nat) returns (r: Option<QString>)
      requires offset <= |data|
      modifies this
      ensures offset <= |data|
      ensures match QdbFormat.LoadString(old(Rest()), n)
              case Throw => r == None
              case Ok(v, rest) => r == Some(v) && Rest() == rest
    {
      if |data| <= offset && n > 0 {
        return None;
      }
      var len := if offset + n > |data| then |data| - offset else n;
      assert Rest()[..|Rest()|] == Rest();
      r := ReadBytes(len);
    }

    method LoadLZFString() returns (r: Option<QString>)
      requires offset <= |data|
      modifies this
      ensures offset <= |data|
      ensures match QdbFormat.LoadLZFString(old(Rest()))
              case Throw => r == None
              case Ok(v, rest) => r == Some(v) && Rest() == rest
    {
      var compressLen := LoadLength();
      if compressLen == None {
        return None;
      }
      if compressLen.value.Special? {
        return Some([]);
      }
      var rawLen := LoadLength();
      if rawLen == None {
        return None;
      }
      if rawLen.value.Special? {
        return Some([]);
      }
      if |data| <= offset {
        return None;
      }
      r := Decompressed(compressLen.value.n, rawLen.value.n);
    }

    /** Unpacks what Read hands out, which is cut short at the end of the data; on failure nothing is skipped. */
    method Decompressed(packedLen: nat, rawLen: nat) returns (r: Option<QString>)
      requires offset < |data|
      modifies this
      ensures offset <= |data|
      ensures r.Some? && QdbFormat.Unpack(old(Rest()), packedLen, rawLen) == Ok(r.value, Rest())
    {
      hide Lzf.Expand, Zeros;
      ghost var b := Rest();
      var n := if offset + packedLen > |data| then |data| - offset else packedLen;
      if n == 0 {
        return Some([]);
      }
      var compressStr := data[offset..][..n];
      var input := new byte[n](i requires 0 <= i < n => compressStr[i]);
      var val := new byte[rawLen](_ => 0);
      assert input[..n] == b[..n];
      var m, errno := Lzf.Decompress(input, n, val, rawLen);
      if m == 0 {
        return Some([]);
      }
      r := Some(val[..]);
      Padded(val[..], m);
      offset := offset + n;
    }

    lemma Padded(s: seq<byte>, m: nat)
      requires m <= |s| && forall i :: m <= i < |s| ==> s[i] == 0
      ensures s == s[..m] + Zeros(|s| - m)
    {
    }

    /** Integers as they are, compressed strings through the integer test. */
    method LoadSpecialStringObject(code: nat) returns (r: Option<QObject>)
      requires offset <= |data|
      modifies this
      ensures offset <= |data|
      ensures match QdbFormat.LoadSpecialStringObject(old(Rest()), code)
              case Throw => r == None
              case Ok(v, rest) => r == Some(v) && Rest() == rest
    {
      match code
      case 0 => r := LoadWidth(1);
      case 1 => r := LoadWidth(2);
      case 2 => r := LoadWidth(4);
      case 3 =>
        var s := LoadLZFString();
        r := if s == None then None else Some(CreateString(s.value));
      case _ => r := None;
    }

    method LoadWidth(width: nat) returns (r: Option<QObject>)
      requires offset <= |data|
      modifies this
      ensures offset <= |data|
      ensures if |old(Rest())| < width then r == None
              else r == Some(Integer(FromLE(old(Rest())[..width]))) && Rest() == old(Rest())[width..]
    {
      var bytes := ReadBytes(width);
      r := if bytes == None then None else Some(Integer(FromLE(bytes.value)));
    }

    /** _LoadGenericString, and the element reads of the container loaders. */
    method LoadElement() returns (r: Option<QString>)
      requires offset <= |data|
      modifies this
      ensures offset <= |data|
      ensures match QdbFormat.LoadElement(old(Rest()))
              case Throw => r == None
              case Ok(v, rest) => r == Some(v) && Rest() == rest
    {
      var len := LoadLength();
      if len == None {
        return None;
      }
      if len.value.Special? {
        var o := LoadSpecialStringObject(len.value.code);
        r := if o == None then None else Some(Text(o.value));
      } else {
        r := LoadString(len.value.n);
      }
    }

    method LoadStringObject() returns (r: Option<QObject>)
      requires offset <= |data|
      modifies this
      ensures offset <= |data|
      ensures match QdbFormat.LoadStringObject(old(Rest()))
              case Throw => r == None
              case Ok(v, rest) => r == Some(v) && Rest() == rest
    {
      var len := LoadLength();
      if len == None {
        return None;
      }
      if len.value.Special? {
        r := LoadSpecialStringObject(len.value.code);
      } else {
        var s := LoadString(len.value.n);
        r := if s == None then None else Some(CreateString(s.value));
      }
    }

    /** The loops of _LoadList, _LoadSet and _LoadHash: a count, then that many elements or pairs of them. */
    method LoadCounted(pairs: bool) returns (r: Option<seq<QString>>)
      requires offset <= |data|
      modifies this
      ensures offset <= |data|
      ensures match QdbFormat.LoadCounted(old(Rest()), pairs)
              case Throw => r == None
              case Ok(v, rest) => r == Some(v) && Rest() == rest
    {
      var len := LoadLength();
      if len == None || len.value.Special? {
        return None;
      }
      r := ReadElements(if pairs then 2 * len.value.n else len.value.n);
    }

    method ReadElements(n: nat) returns (r: Option<seq<QString>>)
      requires offset <= |data|
      modifies this
      ensures offset <= |data|
      ensures match LoadElements(old(Rest()), n)
              case Throw => r == None
              case Ok(v, rest) => r == Some(v) && Rest() == rest
    {
      hide LoadElements, QdbFormat.LoadElement;
      ghost var whole := LoadElements(Rest(), n);
      var ss: seq<QString> := [];
      PrependNothing(whole);
      for i := 0 to n
        invariant offset <= |data| && |ss| == i
        invariant whole == Prepend(ss, LoadElements(Rest(), n - i))
      {
        LoadElementsStep(Rest(), n - i);
        var s := LoadElement();
        if s == None {
          return None;
        }
        PrependStep(ss, s.value, LoadElements(Rest(), n - i - 1));
        ss := ss + [s.value];
      }
      LoadElementsStep(Rest(), 0);
      assert ss + [] == ss;
      r := Some(ss);
    }

    method LoadObject(tag: byte) returns (r: Option<QObject>)
      requires offset <= |data|
      modifies this
      ensures offset <= |data|
      ensures match QdbFormat.LoadObject(old(Rest()), tag)
              case Throw => r == None
              case Ok(v, rest) => r == Some(v) && Rest() == rest
    {
      if tag == TYPE_STRING {
        r := LoadStringObject();
      } else if tag == TYPE_LIST {
        var ss := LoadCounted(false);
        r := if ss == None then None else Some(List(ss.value));
      } else if tag == TYPE_SET {
        var ss := LoadCounted(false);
        r := if ss == None then None else Some(Set(MembersOf(ss.value)));
      } else if tag == TYPE_HASH {
        var ss := LoadCounted(true);
        r := if ss == None then None else Some(Hash(FieldsOf(ss.value)));
      } else {
        r := Some(Invalid);
      }
    }
  }

  ghost function Prepend(ss: seq<QString>, r: Parsed<seq<QString>>): Parsed<seq<QString>> {
    match r case Throw => Throw case Ok(tt, rest) => Ok(ss + tt, rest)
  }

  lemma PrependNothing(r: Parsed<seq<QString>>)
    ensures Prepend([], r) == r
  {
    if r.Ok? {
      assert [] + r.value == r.value;
    }
  }

  lemma LoadElementsStep(b: seq<byte>, n: nat)
    ensures LoadElements(b, n) ==
            if n == 0 then Ok([], b)
            else match QdbFormat.LoadElement(b)
              case Throw => Throw
              case Ok(s, rest) => Prepend([s], LoadElements(rest, n - 1))
  {
  }

  lemma PrependStep(ss: seq<QString>, s: QString, r: Parsed<seq<QString>>)
    ensures Prepend(ss, Prepend([s], r)) == Prepend(ss + [s], r)
  {
    if r.Ok? {
      AppendAssociates(ss, [s], r.value);
    }
  }

  // ----- DUMP and RESTORE -----

  /** The eight bytes of the checksum; crc64 itself is any function. */
  function Checksum(crc64: seq<byte> -> nat, b: seq<byte>): (c: seq<byte>)
    ensures |c| == 8
  {
    ToLE(crc64(b), 8)
  }

  /** The two bytes of version, of which the first counts, and the checksum of all but the last eight bytes. */
  predicate TrailerOk(crc64: seq<byte> -> nat, data: seq<byte>, rest: seq<byte>) {
    && 10 <= |rest| <= |data|
    && rest[0] == VERSION
    && rest[2..10] == Checksum(crc64, data[..|data| - 8])
  }

  /** What RESTORE makes of a payload: the object, or Invalid for bad data, version or checksum. */
  function Restored(crc64: seq<byte> -> nat, data: seq<byte>): QObject {
    if data == [] then Invalid
    else match QdbFormat.LoadObject(data[1..], data[0])
      case Throw => Invalid
      case Ok(o, rest) => if TrailerOk(crc64, data, rest) then o else Invalid
  }

  method DumpObject(crc64: seq<byte> -> nat, val: QObject) returns (result: seq<byte>)
    requires Storable(val)
    ensures exists b :: IsSavedObject(b, val)
                        && result == [TypeOf(val)] + b + [6, 0] + ToLE(crc64([TypeOf(val)] + b + [6, 0]), 8)
    ensures SafeObject(val) ==> SameValue(Restored(crc64, result), val)
  {
    hide Storable, IsSavedObject, SafeObject, SameValue, Restored, Checksum, TypeOf;
    StorableIsValid(val);
    var saver := new QDBSaver();
    saver.SaveType(val);
    assert saver.qdb == [TypeOf(val)];
    ghost var b := saver.SaveObject(val);
    assert saver.qdb == [TypeOf(val)] + b;
    result := saver.qdb + [VERSION, 0];
    result := result + Checksum(crc64, result);
    ChecksumIs(crc64, [TypeOf(val)] + b + [6, 0]);
    if SafeObject(val) {
      RestoredDump(crc64, val, b);
    }
  }

  lemma ChecksumIs(crc64: seq<byte> -> nat, body: seq<byte>)
    ensures Checksum(crc64, body) == ToLE(crc64(body), 8)
  {
  }

  lemma TrailerOfDump(crc64: seq<byte> -> nat, body: seq<byte>)
    requires |body| >= 2
    ensures TrailerOk(crc64, body + Checksum(crc64, body), [VERSION, 0] + Checksum(crc64, body))
  {
    var crc := Checksum(crc64, body);
    assert (body + crc)[..|body|] == body && ([VERSION, 0] + crc)[2..10] == crc;
  }

  lemma StorableIsValid(o: QObject)
    requires Storable(o)
    ensures !o.Invalid?
  {
  }

  /** A payload restores to the value that was dumped. */
  lemma RestoredDump(crc64: seq<byte> -> nat, val: QObject, b: seq<byte>)
    requires IsSavedObject(b, val) && SafeObject(val)
    ensures var body := [TypeOf(val)] + b + [VERSION, 0];
            SameValue(Restored(crc64, body + Checksum(crc64, body)), val)
  {
    assert !val.Invalid?;
    hide IsSavedObject, QdbFormat.LoadObject, TrailerOk, Checksum, SameValue, SafeObject, TypeOf;
    var body := [TypeOf(val)] + b + [VERSION, 0];
    var rest := [VERSION, 0] + Checksum(crc64, body);
    LoadSavedObject(b, val, rest);
    TrailerOfDump(crc64, body);
    AppendAssociates([TypeOf(val)] + b, [VERSION, 0], Checksum(crc64, body));
    AppendAssociates([TypeOf(val)], b, rest);
    AppendPrefix([TypeOf(val)], b + rest);
  }

  /** What is restored when a saved object is followed by any bytes at all: nothing if they are fewer than ten, if the
      first is not the version, or if the last eight of the ten are not the checksum. */
  lemma RestoredIff(crc64: seq<byte> -> nat, val: QObject, b: seq<byte>, t: seq<byte>)
    requires IsSavedObject(b, val) && !val.Invalid?
    ensures var data := [TypeOf(val)] + b + t;
            var o := Restored(crc64, data);
            && (!o.Invalid? <==> |t| >= 10 && t[0] == 6 && t[2..10] == ToLE(crc64(data[..|data| - 8]), 8))
            && (!o.Invalid? && SafeObject(val) ==> SameValue(o, val))
  {
    hide IsSavedObject, QdbFormat.LoadObject, SameValue, SafeObject, TypeOf;
    LoadSavedObject(b, val, t);
    AppendAssociates([TypeOf(val)], b, t);
    AppendPrefix([TypeOf(val)], b + t);
  }

  /** The payload of a dump, with another checksum, another version, or cut inside its trailer. */
  lemma WrongDump(crc64: seq<byte> -> nat, val: QObject, b: seq<byte>, c: seq<byte>, version: byte, cut: nat)
    requires IsSavedObject(b, val) && !val.Invalid? && |c| == 8 && 0 < cut <= 10
    ensures var body := [TypeOf(val)] + b + [6, 0];
            && (c != ToLE(crc64(body), 8) ==> Restored(crc64, body + c) == Invalid)
            && Restored(crc64, (body + c)[..|body + c| - cut]) == Invalid
    ensures var body := [TypeOf(val)] + b + [version, 0];
            version != 6 ==> Restored(crc64, body + ToLE(crc64(body), 8)) == Invalid
  {
    hide IsSavedObject, SameValue, SafeObject, TypeOf, Restored, ToLE;
    var saved := [TypeOf(val)] + b;
    var body, other := saved + [6, 0], saved + [version, 0];
    var crc := ToLE(crc64(other), 8);
    AppendAssociates(saved, [6, 0], c);
    AppendAssociates(saved, [version, 0], crc);
    RestoredIff(crc64, val, b, [6, 0] + c);
    RestoredIff(crc64, val, b, [version, 0] + crc);
    RestoredIff(crc64, val, b, ([6, 0] + c)[..10 - cut]);
    assert (saved + ([6, 0] + c))[..|saved| + 2] == body && ([6, 0] + c)[2..10] == c;
    assert (body + c)[..|body + c| - cut] == saved + ([6, 0] + c)[..10 - cut];
  }

  /** Exceptions, a wrong version and a wrong checksum all give an invalid object. */
  method RestoreObject(crc64: seq<byte> -> nat, data: seq<byte>) returns (o: QObject)
    ensures o == Restored(crc64, data)
  {
    var loader := new QDBLoader(data);
    assert loader.Rest() == data;
    var tag := loader.LoadByte();
    if tag == None {
      return Invalid;
    }
    var obj := loader.LoadObject(tag.value);
    if obj == None {
      return Invalid;
    }
    var ok := CheckTrailer(crc64, loader);
    return if ok then obj.value else Invalid;
  }

  method CheckTrailer(crc64: seq<byte> -> nat, loader: QDBLoader) returns (ok: bool)
    requires loader.offset <= |loader.data|
    modifies loader
    ensures ok == TrailerOk(crc64, loader.data, old(loader.Rest()))
  {
    ghost var rest := loader.Rest();
    var v0 := loader.LoadByte();
    if v0 == None {
      return false;
    }
    var v1 := loader.LoadByte();
    if v1 == None || v0.value != VERSION {
      return false;
    }
    var crc: seq<byte> := [];
    assert loader.Rest() == rest[2..];
    for i := 0 to 8
      invariant loader.offset <= |loader.data|
      invariant i + 2 <= |rest| && crc == rest[2..2 + i] && loader.Rest() == rest[2 + i..]
    {
      var c := loader.LoadByte();
      if c == None {
        return false;
      }
      crc := crc + [c.value];
    }
    return crc == Checksum(crc64, loader.data[..|loader.data| - 8]);
  }
}
