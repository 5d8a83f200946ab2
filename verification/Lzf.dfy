/** The LZF compressor and decompressor: QBase/lzf/lzf_c.c and QBase/lzf/lzf_d.c, in the configuration
    QBase/lzf/lzfP.h selects (VERY_FAST, HLOG 16, INIT_HTAB 0, CHECK_INPUT 1). */
module Lzf {
  import opened Bytes

  const MAX_LIT := 32
  const MAX_OFF := 8192
  const MAX_REF := 264
  const HSIZE := 0x1_0000

  datatype Errno = E2BIG | EINVAL

  datatype Outcome = Done(out: seq<byte>) | Failed(errno: Errno)

  // ----- what a stream means -----

  /** out extended by n bytes, each a copy of the byte dist places before it; dist may be less than n. */
  function CopyBack(out: seq<byte>, dist: nat, n: nat): (r: seq<byte>)
    requires 0 < dist <= |out|
    ensures |r| == |out| + n
    decreases n
  {
    if n == 0 then out else CopyBack(out + [out[|out| - dist]], dist, n - 1)
  }

  /** The control bytes of a back reference: its size, how many bytes it copies and from how far back. */
  function RefSize(ctrl: byte): (n: nat) { if ctrl / 32 == 7 then 3 else 2 }

  function RefCount(ref: seq<byte>): (n: nat)
    requires 0 < |ref| && RefSize(ref[0]) <= |ref|
  {
    var high: int, more: int := ref[0] / 32, ref[1];
    if high == 7 then high + more + 2 else high + 2
  }

  function RefDist(ref: seq<byte>): (n: nat)
    requires 0 < |ref| && RefSize(ref[0]) <= |ref|
    ensures n > 0
  {
    var high: int, low: int := ref[0] % 32, ref[RefSize(ref[0]) - 1];
    high * 256 + low + 1
  }

  /** The bytes that `stream` stands for when `out` is already written and at most cap bytes may be. */
  function Expand(stream: seq<byte>, out: seq<byte>, cap: nat): Outcome
    decreases |stream|
  {
    if stream == [] then Done(out)
    else if stream[0] < MAX_LIT then
      var n: nat := stream[0] + 1;
      if |out| + n > cap then Failed(E2BIG)
      else if 1 + n > |stream| then Failed(EINVAL)
      else Expand(stream[1 + n..], out + stream[1..1 + n], cap)
    else if |stream| < RefSize(stream[0]) then Failed(EINVAL)
    else if |out| + RefCount(stream) > cap then Failed(E2BIG)
    else if RefDist(stream) > |out| then Failed(EINVAL)
    else Expand(stream[RefSize(stream[0])..], CopyBack(out, RefDist(stream), RefCount(stream)), cap)
  }

  lemma ExpandNothing(data: seq<byte>, cap: nat)
    ensures Expand([], [], cap) == Done(data[..0])
  {
  }

  lemma LiteralStep(stream: seq<byte>, out: seq<byte>, cap: nat)
    requires stream != [] && stream[0] < MAX_LIT
    ensures var n: nat := stream[0] + 1;
            Expand(stream, out, cap) == if |out| + n > cap then Failed(E2BIG)
                                        else if 1 + n > |stream| then Failed(EINVAL)
                                        else Expand(stream[1 + n..], out + stream[1..1 + n], cap)
  {
  }

  lemma ReferenceStep(stream: seq<byte>, out: seq<byte>, cap: nat)
    requires stream != [] && stream[0] >= MAX_LIT
    ensures var head := RefSize(stream[0]);
            Expand(stream, out, cap)
            == if |stream| < head then Failed(EINVAL)
               else if |out| + RefCount(stream) > cap then Failed(E2BIG)
               else if RefDist(stream) > |out| then Failed(EINVAL)
               else Expand(stream[head..], CopyBack(out, RefDist(stream), RefCount(stream)), cap)
  {
  }

  lemma SameReference(a: seq<byte>, b: seq<byte>)
    requires a != [] && RefSize(a[0]) <= |a|
    ensures RefCount(a + b) == RefCount(a) && RefDist(a + b) == RefDist(a)
  {
  }

  /** Streams compose: what follows a complete stream is expanded on top of its result. */
  lemma {:induction false} ExpandConcat(a: seq<byte>, b: seq<byte>, out: seq<byte>, cap: nat)
    requires Expand(a, out, cap).Done?
    ensures Expand(a + b, out, cap) == Expand(b, Expand(a, out, cap).out, cap)
    decreases |a|
  {
    hide Expand, CopyBack, RefCount, RefDist;
    if a == [] {
      assert a + b == b;
      AllExpanded(out, cap);
    } else if a[0] < MAX_LIT {
      var n: nat := a[0] + 1;
      LiteralStep(a, out, cap);
      LiteralStep(a + b, out, cap);
      TailOfConcat(a, b, 1, 1 + n);
      ExpandConcat(a[1 + n..], b, out + a[1..1 + n], cap);
    } else {
      var head := RefSize(a[0]);
      ReferenceStep(a, out, cap);
      ReferenceStep(a + b, out, cap);
      SameReference(a, b);
      TailOfConcat(a, b, 1, head);
      ExpandConcat(a[head..], b, CopyBack(out, RefDist(a), RefCount(a)), cap);
    }
  }

  /** The errors tell a bad stream from too little room: more room does not help against EINVAL, and with enough of it
      there is no E2BIG. */
  lemma {:induction false} ExpandErrors(stream: seq<byte>, out: seq<byte>, cap: nat, more: nat)
    requires cap <= more
    ensures Expand(stream, out, cap) == Failed(EINVAL) ==> Expand(stream, out, more) == Failed(EINVAL)
    ensures more >= |out| + 264 * |stream| ==> Expand(stream, out, more) != Failed(E2BIG)
    ensures Expand(stream, out, cap) == Failed(E2BIG) && Expand(stream, out, more).Done? ==>
              |Expand(stream, out, more).out| > cap
    decreases |stream|
  {
    hide Expand, CopyBack, RefCount, RefDist;
    if stream == [] {
      AllExpanded(out, cap);
      AllExpanded(out, more);
    } else if stream[0] < MAX_LIT {
      var n: nat := stream[0] + 1;
      LiteralStep(stream, out, cap);
      LiteralStep(stream, out, more);
      if 1 + n <= |stream| {
        ExpandErrors(stream[1 + n..], out + stream[1..1 + n], cap, more);
        ExpandGrows(stream[1 + n..], out + stream[1..1 + n], more);
      }
    } else {
      var head := RefSize(stream[0]);
      ReferenceStep(stream, out, cap);
      ReferenceStep(stream, out, more);
      if head <= |stream| {
        RefCountLimit(stream);
      }
      if head <= |stream| && RefDist(stream) <= |out| {
        var rest, copied := stream[head..], CopyBack(out, RefDist(stream), RefCount(stream));
        ExpandErrors(rest, copied, cap, more);
        ExpandGrows(rest, copied, more);
      }
    }
  }

  lemma RefCountLimit(ref: seq<byte>)
    requires ref != [] && RefSize(ref[0]) <= |ref|
    ensures RefCount(ref) <= 264
  {
  }

  lemma {:induction false} ExpandGrows(stream: seq<byte>, out: seq<byte>, cap: nat)
    ensures Expand(stream, out, cap).Done? ==> |Expand(stream, out, cap).out| >= |out|
    decreases |stream|
  {
    hide Expand, CopyBack, RefCount, RefDist;
    if stream == [] {
      AllExpanded(out, cap);
    } else if stream[0] < MAX_LIT {
      var n: nat := stream[0] + 1;
      LiteralStep(stream, out, cap);
      if 1 + n <= |stream| {
        ExpandGrows(stream[1 + n..], out + stream[1..1 + n], cap);
      }
    } else {
      var head := RefSize(stream[0]);
      ReferenceStep(stream, out, cap);
      if head <= |stream| && RefDist(stream) <= |out| {
        ExpandGrows(stream[head..], CopyBack(out, RefDist(stream), RefCount(stream)), cap);
      }
    }
  }

  lemma AllExpanded(out: seq<byte>, cap: nat)
    ensures Expand([], out, cap) == Done(out)
  {
  }

  lemma TailOfConcat(a: seq<byte>, b: seq<byte>, i: nat, j: nat)
    requires i <= j <= |a|
    ensures (a + b)[i..j] == a[i..j] && (a + b)[j..] == a[j..] + b
  {
  }

  lemma {:induction false} CopyBackAppends(out: seq<byte>, dist: nat, n: nat)
    requires 0 < dist <= |out|
    ensures out <= CopyBack(out, dist, n)
    decreases n
  {
    if n > 0 {
      CopyBackAppends(out + [out[|out| - dist]], dist, n - 1);
    }
  }

  /** Expansion only appends, and a larger buffer never changes the result. */
  lemma {:induction false} ExpandMonotone(stream: seq<byte>, out: seq<byte>, cap: nat, cap': nat)
    requires Expand(stream, out, cap).Done? && cap <= cap'
    ensures Expand(stream, out, cap') == Expand(stream, out, cap)
    ensures out <= Expand(stream, out, cap).out
    decreases |stream|
  {
    if stream != [] {
      if stream[0] < MAX_LIT {
        var n: nat := stream[0] + 1;
        ExpandMonotone(stream[1 + n..], out + stream[1..1 + n], cap, cap');
      } else {
        CopyBackAppends(out, RefDist(stream), RefCount(stream));
        ExpandMonotone(stream[RefSize(stream[0])..], CopyBack(out, RefDist(stream), RefCount(stream)), cap, cap');
      }
    }
  }

  /** A back reference reproduces data that repeats with period dist, overlap included. */
  lemma {:induction false} CopyBackRepeats(data: seq<byte>, i: nat, dist: nat, n: nat)
    requires 0 < dist <= i && i + n <= |data|
    requires forall k :: i <= k < i + n ==> data[k] == data[k - dist]
    ensures CopyBack(data[..i], dist, n) == data[..i + n]
    decreases n
  {
    if n > 0 {
      assert data[..i] + [data[i - dist]] == data[..i + 1];
      CopyBackRepeats(data, i + 1, dist, n - 1);
    }
  }

  // ----- decompressor -----

  /** errno is meaningful when n is 0; a 0 without an error cannot occur, since the input is not empty. */
  method Decompress(input: array<byte>, inLen: nat, output: array<byte>, outLen: nat)
    returns (n: nat, errno: Errno)
    requires input != output && 0 < inLen <= input.Length && outLen <= output.Length
    modifies output
    ensures match Expand(old(input[..inLen]), [], outLen)
            case Done(out) => n == |out| <= outLen && output[..n] == out
            case Failed(e) => n == 0 && errno == e
    ensures forall k :: (if n > 0 then n else outLen) <= k < output.Length ==> output[k] == old(output[k])
  {
    var ip, op := 0, 0;
    var ok := true;
    errno := EINVAL;
    ghost var whole := Expand(input[..inLen], [], outLen);
    while ip < inLen
      invariant 0 <= ip <= inLen && 0 <= op <= outLen
      invariant Expand(input[ip..inLen], output[..op], outLen) == whole
      invariant forall k :: op <= k < output.Length ==> output[k] == old(output[k])
    {
      if input[ip] < MAX_LIT {
        ok, errno, ip, op := LiteralRun(input, ip, inLen, output, op, outLen);
      } else {
        ok, errno, ip, op := BackReference(input, ip, inLen, output, op, outLen);
      }
      if !ok {
        return 0, errno;
      }
    }
    return op, errno;
  }

  method LiteralRun(input: array<byte>, ip0: nat, inLen: nat, output: array<byte>, op0: nat, outLen: nat)
    returns (ok: bool, errno: Errno, ip: nat, op: nat)
    requires input != output && ip0 < inLen <= input.Length && op0 <= outLen <= output.Length
    requires input[ip0] < MAX_LIT
    modifies output
    ensures op <= outLen && (ok ==> ip0 < ip <= inLen && op0 < op)
    ensures if ok then
              Expand(input[ip..inLen], output[..op], outLen) == old(Expand(input[ip0..inLen], output[..op0], outLen))
            else old(Expand(input[ip0..inLen], output[..op0], outLen)) == Failed(errno)
    ensures forall k :: op <= k < output.Length ==> output[k] == old(output[k])
  {
    hide Expand;
    ghost var stream, out := input[ip0..inLen], output[..op0];
    LiteralStep(stream, out, outLen);
    ip, op := ip0, op0;
    var ctrl: int := input[ip];
    ip := ip + 1;
    ctrl := ctrl + 1;
    if op + ctrl > outLen {
      return false, E2BIG, ip, op;
    }
    if ip + ctrl > inLen {
      return false, EINVAL, ip, op;
    }
    SliceOfSlice(input[..], ip0, inLen, 1, 1 + ctrl);
    SliceOfSlice(input[..], ip0, inLen, 1 + ctrl, inLen - ip0);
    ok, errno := true, EINVAL;
    ip, op := CopyRun(input, ip, output, op, ctrl, outLen);
  }

  method BackReference(input: array<byte>, ip0: nat, inLen: nat, output: array<byte>, op0: nat, outLen: nat)
    returns (ok: bool, errno: Errno, ip: nat, op: nat)
    requires input != output && ip0 < inLen <= input.Length && op0 <= outLen <= output.Length
    requires input[ip0] >= MAX_LIT
    modifies output
    ensures op <= outLen && (ok ==> ip0 < ip <= inLen && op0 < op)
    ensures if ok then
              Expand(input[ip..inLen], output[..op], outLen) == old(Expand(input[ip0..inLen], output[..op0], outLen))
            else old(Expand(input[ip0..inLen], output[..op0], outLen)) == Failed(errno)
    ensures forall k :: op <= k < output.Length ==> output[k] == old(output[k])
  {
    hide Expand, CopyBack, RefCount, RefDist;
    ghost var stream, out := input[ip0..inLen], output[..op0];
    ReferenceStep(stream, out, outLen);
    var len, ref;
    ok, ip, len, ref := ReadRef(input, ip0 + 1, inLen, op0);
    op := op0;
    if !ok {
      return false, EINVAL, ip, op;
    }
    if op + len + 2 > outLen {
      return false, E2BIG, ip, op;
    }
    if ref < 0 {
      return false, EINVAL, ip, op;
    }
    errno := EINVAL;
    SliceOfSlice(input[..], ip0, inLen, ip - ip0, inLen - ip0);
    op := CopyRef(output, op, ref, len + 2, outLen);
  }

  /** Reads the rest of a back reference whose control byte stands just before ip. */
  method ReadRef(input: array<byte>, ip0: nat, inLen: nat, op: nat) returns (ok: bool, ip: nat, len: nat, ref: int)
    requires 0 < ip0 <= inLen <= input.Length && input[ip0 - 1] >= MAX_LIT
    ensures var stream := input[ip0 - 1..inLen];
            && ok == (RefSize(stream[0]) <= |stream|)
            && (ok ==> len + 2 == RefCount(stream) && ref == op - RefDist(stream) && ip == ip0 - 1 + RefSize(stream[0]))
  {
    var ctrl: int := input[ip0 - 1];
    ip, len, ref := ip0, ctrl / 32, op - ctrl % 32 * 256 - 1;
    if ip >= inLen {
      return false, ip, len, ref;
    }
    if len == 7 {
      len := len + input[ip];
      ip := ip + 1;
      if ip >= inLen {
        return false, ip, len, ref;
      }
    }
    ref := ref - input[ip];
    ip := ip + 1;
    ok := true;
  }

  method CopyRun(input: array<byte>, ip0: nat, output: array<byte>, op0: nat, n: nat, outLen: nat)
    returns (ip: nat, op: nat)
    requires input != output && 0 < n && ip0 + n <= input.Length && op0 + n <= outLen <= output.Length
    modifies output
    ensures ip == ip0 + n && op == op0 + n
    ensures output[..op] == old(output[..op0]) + input[ip0..ip]
    ensures forall k :: op <= k < output.Length ==> output[k] == old(output[k])
  {
    ip, op := ip0, op0;
    var ctrl := n;
    while ctrl > 0
      invariant 0 <= ctrl <= n && ip == ip0 + n - ctrl && op == op0 + n - ctrl
      invariant output[..op] == old(output[..op0]) + input[ip0..ip]
      invariant forall k :: op <= k < output.Length ==> output[k] == old(output[k])
    {
      output[op] := input[ip];
      op, ip, ctrl := op + 1, ip + 1, ctrl - 1;
    }
  }

  method CopyRef(output: array<byte>, op0: nat, ref0: nat, n: nat, outLen: nat) returns (op: nat)
    requires ref0 < op0 && op0 + n <= outLen <= output.Length
    modifies output
    ensures op == op0 + n
    ensures output[..op] == CopyBack(old(output[..op0]), op0 - ref0, n)
    ensures forall k :: op <= k < output.Length ==> output[k] == old(output[k])
  {
    op := op0;
    var ref, len := ref0, n;
    while len > 0
      invariant 0 <= len <= n && op == op0 + n - len && ref == op - (op0 - ref0)
      invariant CopyBack(output[..op], op0 - ref0, len) == CopyBack(old(output[..op0]), op0 - ref0, n)
      invariant forall k :: op <= k < output.Length ==> output[k] == old(output[k])
    {
      ghost var out := output[..op];
      output[op] := output[ref];
      assert output[..op + 1] == out + [out[ref]];
      op, ref, len := op + 1, ref + 1, len - 1;
    }
  }

  // ----- compressor -----

  /** FRST and NEXT feed three bytes to IDX; unsigned arithmetic wraps at 32 bits, which IDX's mask absorbs. */
  function First(a: byte, b: byte): (v: nat) { a * 256 + b }

  function Next(v: nat, b: byte): (h: nat) { v * 256 % 0x1_0000_0000 + b }

  function Slot(h: nat): (i: nat)
    ensures i < HSIZE
  {
    (h / 256 - h * 5) % HSIZE
  }

  /** The bytes of a back reference to m bytes, off + 1 places back. */
  function RefBytes(off: nat, m: nat): seq<byte>
    requires off < MAX_OFF && 3 <= m <= MAX_REF
  {
    if m < 9 then [off / 256 + (m - 2) * 32, off % 256]
    else [off / 256 + 7 * 32, m - 9, off % 256]
  }

  /** Appending a closed literal run to a stream appends its bytes to the result. */
  lemma ExpandRun(stream: seq<byte>, data: seq<byte>, i: nat, n: nat, cap: nat)
    requires 0 < n <= MAX_LIT && i + n <= |data| <= cap
    requires Expand(stream, [], cap) == Done(data[..i])
    ensures Expand(stream + ([n - 1] + data[i..i + n]), [], cap) == Done(data[..i + n])
  {
    hide Expand;
    ExpandOneRun(data, i, n, cap);
    ExpandConcat(stream, [n - 1] + data[i..i + n], [], cap);
  }

  lemma ExpandOneRun(data: seq<byte>, i: nat, n: nat, cap: nat)
    requires 0 < n <= MAX_LIT && i + n <= |data| <= cap
    ensures Expand([n - 1] + data[i..i + n], data[..i], cap) == Done(data[..i + n])
  {
    var run: seq<byte> := [n - 1] + data[i..i + n];
    assert run[1..1 + n] == data[i..i + n];
    assert data[..i] + data[i..i + n] == data[..i + n];
    assert run[1 + n..] == [];
  }

  lemma RefBytesParse(off: nat, m: nat)
    requires off < MAX_OFF && 3 <= m <= MAX_REF
    ensures var r := RefBytes(off, m);
            r[0] >= MAX_LIT && |r| == RefSize(r[0]) && RefCount(r) == m && RefDist(r) == off + 1
  {
    var r := RefBytes(off, m);
    assert r[0] / 32 == if m < 9 then m - 2 else 7;
    assert r[0] % 32 == off / 256;
  }

  lemma ExpandRef(stream: seq<byte>, data: seq<byte>, i: nat, off: nat, m: nat, cap: nat)
    requires off < MAX_OFF && 3 <= m <= MAX_REF && off < i && i + m <= |data| <= cap
    requires forall k :: i <= k < i + m ==> data[k] == data[k - (off + 1)]
    requires Expand(stream, [], cap) == Done(data[..i])
    ensures Expand(stream + RefBytes(off, m), [], cap) == Done(data[..i + m])
  {
    hide Expand, RefBytes;
    ExpandOneRef(data, i, off, m, cap);
    ExpandConcat(stream, RefBytes(off, m), [], cap);
  }

  lemma ExpandOneRef(data: seq<byte>, i: nat, off: nat, m: nat, cap: nat)
    requires off < MAX_OFF && 3 <= m <= MAX_REF && off < i && i + m <= |data| <= cap
    requires forall k :: i <= k < i + m ==> data[k] == data[k - (off + 1)]
    ensures Expand(RefBytes(off, m), data[..i], cap) == Done(data[..i + m])
  {
    hide RefBytes, CopyBack;
    var r := RefBytes(off, m);
    RefBytesParse(off, m);
    CopyBackRepeats(data, i, off + 1, m);
    assert r[RefSize(r[0])..] == [];
  }

  /** How far two places are compared with left bytes to go: the unrolled comparison can run a little beyond maxlen. */
  function MatchLimit(left: nat): int {
    if left - 2 > MAX_REF then MAX_REF else if 16 < left - 2 < 19 then 19 else left - 2
  }

  /** The unrolled comparison: sixteen bytes behind the first three, or up to one that differs. */
  method Compare16(input: array<byte>, ref: nat, ip: nat) returns (differs: bool, len: nat)
    requires ref < ip && ip + 18 < input.Length
    requires forall k :: ip <= k < ip + 3 ==> input[k] == input[k - (ip - ref)]
    ensures if differs then 3 <= len <= 18 && input[ref + len] != input[ip + len] else len == 18
    ensures forall k :: ip <= k < ip + len + (if differs then 0 else 1) ==> input[k] == input[k - (ip - ref)]
  {
    len := 2;
    for step := 0 to 16
      invariant len == 2 + step
      invariant forall k :: ip <= k <= ip + len ==> input[k] == input[k - (ip - ref)]
    {
      len := len + 1;
      if input[ref + len] != input[ip + len] {
        return true, len;
      }
    }
    differs := false;
  }

  /** The number of equal bytes at ref and ip, from the three already compared up to the limit: the match ends there, or
      at the first difference. */
  method MatchLength(input: array<byte>, inLen: nat, ref: nat, ip: nat) returns (len: nat)
    requires ref < ip && ip + 4 < inLen <= input.Length
    requires forall k :: ip <= k < ip + 3 ==> input[k] == input[k - (ip - ref)]
    ensures 3 <= len <= MatchLimit(inLen - ip) <= MAX_REF && ip + len <= inLen
    ensures len < MatchLimit(inLen - ip) ==> input[ip + len] != input[ref + len]
    ensures forall k :: ip <= k < ip + len ==> input[k] == input[k - (ip - ref)]
  {
    len := 2;
    var maxlen := inLen - ip - len;
    maxlen := if maxlen > MAX_REF then MAX_REF else maxlen;
    if maxlen > 16 {
      var differs;
      differs, len := Compare16(input, ref, ip);
      if differs { return; }
    }
    len := len + 1;
    while len < maxlen && input[ref + len] == input[ip + len]
      invariant 3 <= len && (len <= maxlen || len == 19 <= inLen - ip)
      invariant forall k :: ip <= k < ip + len ==> input[k] == input[k - (ip - ref)]
    {
      len := len + 1;
    }
  }

  /** The state between two steps: out ends in an open run, a header byte yet to be written followed by the
      last lit input bytes; what precedes the header is a complete stream for the rest of the input read. */
  ghost predicate Open(data: seq<byte>, ip: nat, lit: nat, out: seq<byte>) {
    && lit <= ip <= |data| && lit < |out|
    && out[|out| - lit..] == data[ip - lit..ip]
    && Expand(out[..|out| - lit - 1], [], |data|) == Done(data[..ip - lit])
  }

  lemma OpenLiteral(data: seq<byte>, ip: nat, lit: nat, out: seq<byte>)
    requires Open(data, ip, lit, out) && ip < |data|
    ensures Open(data, ip + 1, lit + 1, out + [data[ip]])
  {
    var out' := out + [data[ip]];
    assert data[ip - lit..ip + 1] == data[ip - lit..ip] + [data[ip]];
    assert out'[..|out| - lit - 1] == out[..|out| - lit - 1];
    assert out'[|out| - lit..] == out[|out| - lit..] + [data[ip]];
  }

  lemma OpenRun(data: seq<byte>, ip: nat, stream: seq<byte>, header: byte)
    requires ip <= |data| && Expand(stream, [], |data|) == Done(data[..ip])
    ensures Open(data, ip, 0, stream + [header])
  {
    assert (stream + [header])[..|stream|] == stream;
  }

  lemma CloseRun(data: seq<byte>, ip: nat, lit: nat, out: seq<byte>)
    requires Open(data, ip, lit, out) && 0 < lit <= MAX_LIT
    ensures Expand(out[|out| - lit - 1 := lit - 1], [], |data|) == Done(data[..ip])
  {
    hide Expand;
    var h, i := |out| - lit - 1, ip - lit;
    assert i + lit == ip && out[h + 1..] == data[i..i + lit];
    HeaderFilled(out, h, lit - 1);
    ExpandRun(out[..h], data, i, lit, |data|);
  }

  lemma HeaderFilled(out: seq<byte>, h: nat, b: byte)
    requires h < |out|
    ensures out[h := b] == out[..h] + ([b] + out[h + 1..])
  {
  }

  /** Ends the run: fills in its header, or takes the header back when the run is empty. */
  method EndRun(ghost data: seq<byte>, ghost ip: nat, output: array<byte>, op0: nat, lit: nat) returns (op: nat)
    requires op0 <= output.Length && lit <= MAX_LIT && Open(data, ip, lit, output[..op0])
    modifies output
    ensures op == if lit == 0 then op0 - 1 else op0
    ensures Expand(output[..op], [], |data|) == Done(data[..ip])
    ensures forall k :: op0 <= k < output.Length ==> output[k] == old(output[k])
    ensures lit > 0 ==> output[op0 - 1] == old(output[op0 - 1])
    ensures lit == 0 ==> output[op0 - 1] == 255 && output[..op0 - 1] == old(output[..op0 - 1])
    ensures lit > 0 ==> forall k :: 0 <= k < op0 && k != op0 - lit - 1 ==> output[k] == old(output[k])
  {
    hide Expand;
    ghost var out := output[..op0];
    output[op0 - lit - 1] := if lit == 0 then 255 else lit - 1;
    op := op0;
    if lit == 0 {
      op := op - 1;
      assert output[..op] == out[..op];
    } else {
      assert output[..op] == out[op - lit - 1 := lit - 1];
      CloseRun(data, ip, lit, out);
    }
  }

  method AddLiteral(input: array<byte>, ip: nat, output: array<byte>, op0: nat, lit0: nat, ghost data: seq<byte>)
    returns (op: nat, lit: nat)
    requires input != output && ip < |data| <= input.Length && input[..|data|] == data
    requires op0 < output.Length && lit0 < MAX_LIT && Open(data, ip, lit0, output[..op0])
    modifies output
    ensures lit < MAX_LIT && op <= output.Length + 1
    ensures if lit0 + 1 == MAX_LIT then lit == 0 && op == op0 + 2 else lit == lit0 + 1 && op == op0 + 1
    ensures op <= output.Length ==> Open(data, ip + 1, lit, output[..op])
    ensures forall k :: op0 + 1 <= k < output.Length ==> output[k] == old(output[k])
  {
    ghost var out := output[..op0];
    lit := lit0 + 1;
    output[op0] := input[ip];
    op := op0 + 1;
    assert output[..op] == out + [data[ip]];
    OpenLiteral(data, ip, lit0, out);
    if lit == MAX_LIT {
      op := EndRun(data, ip + 1, output, op, lit);
      lit := 0;
      op := op + 1;
      if op <= output.Length {
        assert output[..op] == output[..op - 1] + [output[op - 1]];
        OpenRun(data, ip + 1, output[..op - 1], output[op - 1]);
      }
    }
  }

  method AddRef(ghost data: seq<byte>, ghost ip: nat, output: array<byte>, op0: nat, off: nat, m: nat)
    returns (op: nat)
    requires op0 + 3 < output.Length && off < MAX_OFF && 3 <= m <= MAX_REF && off < ip && ip + m <= |data|
    requires forall k :: ip <= k < ip + m ==> data[k] == data[k - (off + 1)]
    requires Expand(output[..op0], [], |data|) == Done(data[..ip])
    modifies output
    ensures op == op0 + |RefBytes(off, m)| + 1
    ensures Open(data, ip + m, 0, output[..op])
    ensures forall k :: op0 + 4 <= k < output.Length ==> output[k] == old(output[k])
  {
    hide Expand;
    ghost var done := output[..op0];
    op := op0;
    var len := m - 2;
    if len < 7 {
      output[op] := off / 256 + len * 32;
      op := op + 1;
    } else {
      output[op] := off / 256 + 7 * 32;
      output[op + 1] := len - 7;
      op := op + 2;
    }
    output[op] := off % 256;
    op := op + 1;
    assert output[..op] == done + RefBytes(off, m);
    ExpandRef(done, data, ip, off, m, |data|);
    op := op + 1;
    assert output[..op] == output[..op - 1] + [output[op - 1]];
    OpenRun(data, ip + m, output[..op - 1], output[op - 1]);
  }

  /** The last bytes, at most two, go out as literals. */
  method Finish(input: array<byte>, ip0: nat, inLen: nat, output: array<byte>, op0: nat, lit0: nat,
                ghost data: seq<byte>)
    returns (op: nat)
    requires input != output && |data| == inLen <= input.Length && input[..|data|] == data
    requires ip0 + 2 >= |data| && op0 + 3 < output.Length && lit0 < MAX_LIT && Open(data, ip0, lit0, output[..op0])
    modifies output
    ensures op <= op0 + 3
    ensures Expand(output[..op], [], |data|) == Done(data)
    ensures forall k :: op0 + 3 <= k < output.Length ==> output[k] == old(output[k])
  {
    op := op0;
    var ip, lit := ip0, lit0;
    while ip < inLen
      invariant ip0 <= ip <= |data| && 0 <= lit < MAX_LIT
      invariant lit0 + ip - ip0 == lit + (if op == op0 + ip - ip0 then 0 else MAX_LIT)
      invariant op0 + ip - ip0 <= op <= op0 + ip - ip0 + 1
      invariant Open(data, ip, lit, output[..op])
      invariant forall k :: op0 + 3 <= k < output.Length ==> output[k] == old(output[k])
    {
      op, lit := AddLiteral(input, ip, output, op, lit, data);
      ip := ip + 1;
    }
    op := EndRun(data, ip, output, op, lit);
  }

  lemma SizeAfterRef(ip0: nat, op0: nat, lit: nat, off: nat, m: nat, op1: nat, op: nat, ip: nat)
    requires SizeOk(ip0, op0, lit) && off < MAX_OFF && 3 <= m <= MAX_REF && op1 == (if lit == 0 then op0 - 1 else op0)
    requires op == op1 + |RefBytes(off, m)| + 1 && ip == ip0 + m
    ensures SizeOk(ip, op, 0)
  {
  }

  lemma RefIsShort(off: nat, m: nat)
    requires off < MAX_OFF && 3 <= m <= MAX_REF
    ensures |RefBytes(off, m)| <= 3
  {
  }

  lemma MatchIs(data: seq<byte>, ip: nat, ref: nat)
    requires IsMatch(data, ip, ref)
    ensures ref < ip && ip + 4 < |data|
    ensures data[ref] == data[ip] && data[ref + 1] == data[ip + 1] && data[ref + 2] == data[ip + 2]
  {
  }

  /** Ends the open run and writes the match found at ref, unless the output is too short for it. */
  method AddMatch(input: array<byte>, ip0: nat, inLen: nat, ref: nat, output: array<byte>, op0: nat, outLen: nat,
                  lit: nat, ghost data: seq<byte>)
    returns (ok: bool, ip: nat, op: nat)
    requires input != output && inLen <= input.Length && input[..inLen] == data
    requires ref < ip0 && ip0 - ref - 1 < MAX_OFF && 0 < ref && ip0 + 4 < inLen
    requires IsMatch(data, ip0, ref)
    requires op0 <= outLen + 1 && outLen < output.Length && lit < MAX_LIT && Open(data, ip0, lit, output[..op0])
    modifies output
    ensures ok == (op0 + (if lit == 0 then 3 else 4) < outLen)
    ensures ok ==> 0 < op <= outLen && ip0 + 3 <= ip <= inLen && Open(data, ip, 0, output[..op])
    ensures ok && SizeOk(ip0, op0, lit) ==> SizeOk(ip, op, 0)
    ensures lit == 0 && op0 == outLen + 1 ==> !ok && output[outLen] == 255
    ensures output[outLen] != old(output[outLen]) ==>
              !ok && output[outLen] == 255 && IsFullAtMatch(data, output[..outLen])
    ensures forall k :: outLen < k < output.Length ==> output[k] == old(output[k])
  {
    hide Expand, IsMatch, IsFullAtMatch, SizeOk, RefBytes, MatchLimit;
    FullAtMatch(data, ip0, ref, lit, output[..op0], output[..op0 - 1]);
    op := EndRun(data, ip0, output, op0, lit);
    if op + 3 + 1 >= outLen {
      return false, ip0, op;
    }
    MatchIs(input[..inLen], ip0, ref);
    var len := MatchLength(input, inLen, ref, ip0);
    ghost var op1 := op;
    RefIsShort(ip0 - ref - 1, len);
    op := AddRef(data, ip0, output, op, ip0 - ref - 1, len);
    ok, ip := true, ip0 + len;
    if SizeOk(ip0, op0, lit) {
      SizeAfterRef(ip0, op0, lit, ip0 - ref - 1, len, op1, op, ip);
    }
  }

  /** Looks the next three bytes up and enters them; the guards alone make the match sound. */
  method Probe(input: array<byte>, ip: nat, inLen: nat, hval0: nat, htab: array<int>)
    returns (found: bool, ref: int, hval: nat)
    requires ip + 2 < inLen <= input.Length && htab.Length == HSIZE && htab as object != input
    modifies htab
    ensures hval == Next(hval0, input[ip + 2]) && ref == old(htab[Slot(hval)]) && htab[Slot(hval)] == ip
    ensures forall k :: 0 <= k < HSIZE && k != Slot(hval) ==> htab[k] == old(htab[k])
    ensures found <==> IsMatch(input[..inLen], ip, ref)
    ensures found ==> 0 < ref < ip && ip - ref - 1 < MAX_OFF && ip + 4 < inLen
    ensures found ==> forall k :: ip <= k < ip + 3 ==> input[k] == input[k - (ip - ref)]
  {
    hide Next, Slot;
    hval := Next(hval0, input[ip + 2]);
    ref := htab[Slot(hval)];
    htab[Slot(hval)] := ip;
    var off := ip - ref - 1;
    found := 0 <= off < MAX_OFF && ip + 4 < inLen && ref > 0
             && input[ref] == input[ip] && input[ref + 1] == input[ip + 1] && input[ref + 2] == input[ip + 2];
  }

  /** What a probe finds in a state on track, and the state behind the literal if it finds nothing. */
  ghost predicate IsNext(data: seq<byte>, ip: int, op: int, lit: int, found: bool, hval: nat, slot: int) {
    if ip == 32 then found && op == 34 && lit == 0
    else
      && !found && ip < 32 && op == ip + 1 && lit == ip
      && OnTrack(data, ip + 1, if ip == 31 then 34 else op + 1, if ip == 31 then 0 else lit + 1, hval, slot)
  }

  lemma LiteralOnTrack(data: seq<byte>, ip: int, op: int, lit: int, ip': int, op': int, lit': int, hval: nat, slot: int)
    requires IsNext(data, ip, op, lit, false, hval, slot) && IsLiteral(ip, op, lit, ip', op', lit')
    ensures OnTrack(data, ip', op', lit', hval, slot)
  {
  }

  lemma RoomOnTrack(data: seq<byte>, ip: int, op: int, lit: int, hval: nat, slot: int)
    requires IsNext(data, ip, op, lit, false, hval, slot)
    ensures op < 33
  {
  }

  /** What a literal does to the counters. */
  predicate IsLiteral(ip: int, op: int, lit: int, ip': int, op': int, lit': int) {
    ip' == ip + 1 && if lit + 1 == MAX_LIT then lit' == 0 && op' == op + 2 else lit' == lit + 1 && op' == op + 1
  }

  lemma MatchOnTrack(data: seq<byte>, ip: int, op: int, lit: int, hval: nat, slot: int)
    requires IsNext(data, ip, op, lit, true, hval, slot)
    ensures op == 34 && lit == 0
  {
  }

  /** A probe, and what is known of it on the run that is followed step by step. */
  method ProbeOnTrack(input: array<byte>, ip: nat, inLen: nat, hval0: nat, htab: array<int>,
                      ghost op: nat, ghost lit: nat, ghost track: bool)
    returns (found: bool, ref: int, hval: nat)
    requires ip + 2 < inLen <= input.Length && htab.Length == HSIZE && htab as object != input
    requires track ==> RunThenMatch(input[..inLen])
                       && OnTrack(input[..inLen], ip, op, lit, hval0, htab[SlotOf(1, 2, 3)])
    modifies htab
    ensures found ==> 0 < ref < ip && ip - ref - 1 < MAX_OFF && ip + 4 < inLen && IsMatch(input[..inLen], ip, ref)
    ensures track ==> IsNext(input[..inLen], ip, op, lit, found, hval, htab[SlotOf(1, 2, 3)])
  {
    hide Next, Slot, First, OnTrack, RunThenMatch, SlotOf;
    ghost var slot0 := htab[SlotOf(1, 2, 3)];
    found, ref, hval := Probe(input, ip, inLen, hval0, htab);
    if track {
      StaysOnTrack(input[..inLen], ip, op, lit, hval0, slot0, found, ref, hval, htab[SlotOf(1, 2, 3)]);
    }
  }

  /** After a match the table learns its last two positions. */
  method Rehash(input: array<byte>, ip: nat, htab: array<int>) returns (hval: nat)
    requires ip + 3 < input.Length && htab.Length == HSIZE && htab as object != input
    modifies htab
  {
    hval := First(input[ip], input[ip + 1]);
    hval := Next(hval, input[ip + 2]);
    htab[Slot(hval)] := ip;
    hval := Next(hval, input[ip + 3]);
    htab[Slot(hval)] := ip + 1;
  }

  /** Bytes 0 to 31, and then five of them again. */
  ghost predicate RunThenMatch(data: seq<byte>) {
    |data| == 37 && (forall i :: 0 <= i < 32 ==> data[i] == i) && forall i :: 32 <= i < 37 ==> data[i] == i - 31
  }

  /** The state of the compressor in front of byte ip, on such data; slot is what the table holds for 1, 2, 3. */
  ghost predicate OnTrack(data: seq<byte>, ip: int, op: int, lit: int, hval: nat, slot: int) {
    && |data| == 37 && 0 <= ip <= 32 && op == (if ip < 32 then ip + 1 else 34) && lit == (if ip < 32 then ip else 0)
    && hval % 0x1_0000 == First(data[ip], data[ip + 1]) && (ip > 1 ==> slot == 1)
  }

  /** What has been written fills the output to its end, with no literal open, and a match begins here. */
  ghost predicate IsFullAtMatch(data: seq<byte>, stream: seq<byte>) {
    exists ip, ref :: IsMatch(data, ip, ref) && Expand(stream, [], |data|) == Done(data[..ip])
  }

  /** The guards of the compressor, but for the table. */
  ghost predicate IsMatch(data: seq<byte>, ip: int, ref: int) {
    && 0 < ref < ip && ip - ref - 1 < MAX_OFF && ip + 4 < |data|
    && data[ref] == data[ip] && data[ref + 1] == data[ip + 1] && data[ref + 2] == data[ip + 2]
  }

  /** The bound on what has been written. */
  predicate SizeOk(ip: int, op: int, lit: int) { 32 * op + lit <= 33 * ip + 32 }

  predicate TooShort(inLen: int, outLen: int) { 32 * outLen <= 33 * inLen }

  lemma LiteralSize(ip: int, op: int, lit: int, ip': int, op': int, lit': int)
    requires SizeOk(ip, op, lit) && IsLiteral(ip, op, lit, ip', op', lit')
    ensures SizeOk(ip', op', lit')
  {
  }

  lemma FullSize(ip: int, op: int, lit: int, inLen: int, outLen: int)
    requires SizeOk(ip, op, lit) && ip + 2 < inLen && 0 <= lit && op >= outLen
    ensures TooShort(inLen, outLen)
  {
  }

  lemma MatchSize(ip: int, op: int, lit: int, inLen: int, outLen: int)
    requires SizeOk(ip, op, lit) && ip + 4 < inLen && 0 <= lit && op + (if lit == 0 then 3 else 4) >= outLen
    ensures TooShort(inLen, outLen)
  {
  }

  lemma StartSize()
    ensures SizeOk(0, 1, 0)
  {
  }

  lemma EndSize(ip: int, op: int, lit: int, inLen: int, outLen: int)
    ensures inLen >= 0 && outLen >= inLen + inLen / 32 + 4 ==> !TooShort(inLen, outLen)
    ensures inLen >= 0 && outLen >= inLen + inLen / 32 + 4 && SizeOk(ip, op, lit) && ip <= inLen && 0 <= lit
            ==> op + 3 <= outLen
  {
  }

  /** One turn of the compressor's loop: a match or a literal. It fails when the output is too short. */
  method Step(input: array<byte>, ip0: nat, inLen: nat, output: array<byte>, op0: nat, outLen: nat, lit0: nat,
              hval0: nat, htab: array<int>, ghost data: seq<byte>, ghost track: bool)
    returns (failed: bool, ip: nat, op: nat, lit: nat, hval: nat)
    requires input != output && htab as object !in {input, output} && htab.Length == HSIZE
    requires inLen <= input.Length && data == input[..inLen] && ip0 + 2 < inLen && lit0 < MAX_LIT
    requires 0 < op0 <= outLen + 1 <= output.Length && Open(data, ip0, lit0, output[..op0])
    requires SizeOk(ip0, op0, lit0)
    requires track ==> outLen == 33 && RunThenMatch(data)
                       && OnTrack(data, ip0, op0, lit0, hval0, htab[SlotOf(1, 2, 3)])
    modifies output, htab
    ensures lit < MAX_LIT && 0 < op <= outLen + 1 && ip0 <= ip <= inLen
    ensures if failed then TooShort(inLen, outLen)
            else ip0 < ip && Open(data, ip, lit, output[..op]) && SizeOk(ip, op, lit)
    ensures output[outLen] != old(output[outLen]) ==>
              failed && output[outLen] == 255 && IsFullAtMatch(data, output[..outLen])
    ensures track ==> if failed then output[33] == 255 else OnTrack(data, ip, op, lit, hval, htab[SlotOf(1, 2, 3)])
    ensures forall k :: outLen + 1 <= k < output.Length ==> output[k] == old(output[k])
  {
    hide Expand, Open, Next, Slot, First, MatchLimit, IsFullAtMatch, OnTrack, RunThenMatch, SlotOf, IsMatch, IsNext;
    hide SizeOk, TooShort;
    var found, ref;
    found, ref, hval := ProbeOnTrack(input, ip0, inLen, hval0, htab, op0, lit0, track);
    if found {
      if track {
        MatchOnTrack(data, ip0, op0, lit0, hval, htab[SlotOf(1, 2, 3)]);
      }
      var ok;
      ok, ip, op := AddMatch(input, ip0, inLen, ref, output, op0, outLen, lit0, data);
      if !ok {
        MatchSize(ip0, op0, lit0, inLen, outLen);
        return true, ip0, op0, lit0, hval;
      }
      lit := 0;
      if ip < inLen - 2 {
        hval := Rehash(input, ip - 2, htab);
      }
    } else {
      if op0 >= outLen {
        FullSize(ip0, op0, lit0, inLen, outLen);
        if track {
          RoomOnTrack(data, ip0, op0, lit0, hval, htab[SlotOf(1, 2, 3)]);
        }
        return true, ip0, op0, lit0, hval;
      }
      op, lit := AddLiteral(input, ip0, output, op0, lit0, data);
      ip := ip0 + 1;
      LiteralSize(ip0, op0, lit0, ip, op, lit);
      if track {
        LiteralOnTrack(data, ip0, op0, lit0, ip, op, lit, hval, htab[SlotOf(1, 2, 3)]);
      }
    }
    failed := false;
  }

  /** htab stands for the uninitialised table on the stack: its entries, positions relative to the input, may
      be any integers. The byte behind outLen changes only when a match is found while the output is full and no literal
      is open; the call returns 0 then. */
  method Compress(input: array<byte>, inLen: nat, output: array<byte>, outLen: nat, htab: array<int>)
    returns (n: nat)
    requires input != output && htab as object !in {input, output}
    requires inLen <= input.Length && htab.Length == HSIZE
    requires inLen > 0 && outLen > 0 ==> 2 <= input.Length
    requires outLen + 1 <= output.Length
    modifies output, htab
    ensures n <= outLen
    ensures n > 0 ==> Expand(output[..n], [], inLen) == Done(input[..inLen])
    ensures output[outLen] != old(output[outLen]) ==>
              n == 0 && output[outLen] == 255 && IsFullAtMatch(input[..inLen], output[..outLen])
    ensures outLen == 33 && RunThenMatch(input[..inLen]) ==> n == 0 && output[33] == 255
    ensures forall k :: outLen + 1 <= k < output.Length ==> output[k] == old(output[k])
    ensures inLen > 0 && outLen >= inLen + inLen / 32 + 4 ==> n > 0
  {
    hide Expand, Open, Next, Slot, First, MatchLimit, IsFullAtMatch, OnTrack, RunThenMatch, SlotOf;
    hide SizeOk, TooShort;
    ghost var data := input[..inLen];
    RunIsLong(data);
    if inLen == 0 || outLen == 0 {
      return 0;
    }
    var ip, op := 0, 0;
    var lit := 0;
    op := op + 1;
    var hval := First(input[ip], input[ip + 1]);
    StartsOpen(data, output);
    StartSize();
    ghost var track := outLen == 33 && RunThenMatch(data);
    if track {
      StartsOnTrack(data, hval, htab[SlotOf(1, 2, 3)]);
    }
    var failed := false;
    while ip < inLen - 2 && !failed
      invariant 0 <= lit < MAX_LIT && 0 <= ip <= inLen && 0 < op <= outLen + 1
      invariant !failed ==> Open(data, ip, lit, output[..op]) && output[outLen] == old(output[outLen])
      invariant output[outLen] != old(output[outLen]) ==> output[outLen] == 255 && IsFullAtMatch(data, output[..outLen])
      invariant if failed then TooShort(inLen, outLen) else SizeOk(ip, op, lit)
      invariant track ==> if failed then output[33] == 255
                          else inLen == 37 && OnTrack(data, ip, op, lit, hval, htab[SlotOf(1, 2, 3)])
      invariant forall k :: outLen + 1 <= k < output.Length ==> output[k] == old(output[k])
      decreases inLen - ip, if failed then 0 else 1
    {
      failed, ip, op, lit, hval := Step(input, ip, inLen, output, op, outLen, lit, hval, htab, data, track);
    }
    EndSize(ip, op, lit, inLen, outLen);
    if failed { return 0; }
    if track {
      TrackEnds(data, ip, op, lit, hval, htab[SlotOf(1, 2, 3)]);
    }
    if op + 3 > outLen {
      return 0;
    }
    n := Finish(input, ip, inLen, output, op, lit, data);
  }

  /** The slot of three bytes. */
  function SlotOf(a: byte, b: byte, c: byte): (i: nat)
    ensures i < HSIZE
  {
    (256 * a - 1279 * b - 5 * c) % HSIZE
  }

  lemma SlotOfThree(v: nat, a: byte, b: byte, c: byte)
    requires v % 0x1_0000 == First(a, b)
    ensures Slot(Next(v, c)) == SlotOf(a, b, c) && Next(v, c) % 0x1_0000 == First(b, c)
  {
    var q: int, f: int := v / 0x1_0000, First(a, b);
    var top: int := q % 256;
    Remainder(q / 256, top * 0x100_0000 + f * 256, v * 256);
    SlotOfHash(Next(v, c), top, a, b, c);
  }

  lemma Remainder(k: int, r: int, n: int)
    requires 0 <= r < 0x1_0000_0000 && n == k * 0x1_0000_0000 + r
    ensures n % 0x1_0000_0000 == r
  {
  }

  lemma SlotOfHash(h: nat, top: int, a: byte, b: byte, c: byte)
    requires 0 <= top < 256 && h == top * 0x100_0000 + (a * 256 + b) * 256 + c
    ensures Slot(h) == SlotOf(a, b, c) && h % 0x1_0000 == First(b, c)
  {
    var x, k: int := 256 * a - 1279 * b - 5 * c, top - 1280 * top - 5 * a;
    HighBytes(top * 0x1_0000 + a * 256 + b, c, h);
    LowBytes(top * 256 + a, b, c, h);
    assert h / 256 - h * 5 == x + k * HSIZE;
    SlotWraps(x, k);
  }

  lemma HighBytes(q: nat, c: byte, h: nat)
    requires h == q * 256 + c
    ensures h / 256 == q
  {
  }

  lemma LowBytes(q: nat, b: byte, c: byte, h: nat)
    requires h == q * 0x1_0000 + b * 256 + c
    ensures h % 0x1_0000 == First(b, c)
  {
  }

  lemma SlotWraps(x: int, k: int)
    ensures (x + k * HSIZE) % HSIZE == x % HSIZE
  {
  }

  /** No other three bytes among those that come first share a slot with 1, 2, 3. */
  lemma OtherSlots(data: seq<byte>, i: nat)
    requires RunThenMatch(data) && i < 32 && i != 1
    ensures SlotOf(data[i], data[i + 1], data[i + 2]) != SlotOf(1, 2, 3)
  {
    if i < 30 {
      assert SlotOf(data[i], data[i + 1], data[i + 2]) == (-1028 * i - 1289) % HSIZE;
    }
  }

  /** With room for 33 bytes, and 32 literals before a match: whatever the table held, the byte behind the room is
      written, and the call returns 0. */
  method WritesBehindTheEnd(input: array<byte>, output: array<byte>, htab: array<int>) returns (n: nat)
    requires input != output && htab as object !in {input, output} && htab.Length == HSIZE
    requires input.Length == 37 && RunThenMatch(input[..]) && output.Length == 34
    modifies output, htab
    ensures n == 0 && output[33] == 255
  {
    assert input[..37] == input[..];
    n := Compress(input, 37, output, 33, htab);
  }

  lemma StartsOpen(data: seq<byte>, output: array<byte>)
    requires output.Length > 0
    ensures Open(data, 0, 0, output[..1])
  {
    OpenRun(data, 0, [], output[0]);
    assert output[..1] == [output[0]];
  }

  lemma StartsOnTrack(data: seq<byte>, hval: nat, slot: int)
    requires RunThenMatch(data) && (|data| == 37 ==> hval == First(data[0], data[1]))
    ensures |data| == 37 && OnTrack(data, 0, 1, 0, hval, slot)
  {
    FirstIsSmall(data[0], data[1]);
  }

  lemma TrackEnds(data: seq<byte>, ip: int, op: int, lit: int, hval: nat, slot: int)
    requires OnTrack(data, ip, op, lit, hval, slot)
    ensures ip <= 32
  {
  }

  /** The first 32 probes find nothing, and the next one does. */
  lemma StaysOnTrack(data: seq<byte>, ip: nat, op: nat, lit: nat, hval0: nat, slot0: int, found: bool, ref: int,
                     hval: nat, slot: int)
    requires RunThenMatch(data) && OnTrack(data, ip, op, lit, hval0, slot0) && hval == Next(hval0, data[ip + 2])
    requires slot == if Slot(hval) == SlotOf(1, 2, 3) then ip else slot0
    requires Slot(hval) == SlotOf(1, 2, 3) ==> ref == slot0
    requires found <==> IsMatch(data, ip, ref)
    ensures |data| == 37 && IsNext(data, ip, op, lit, found, hval, slot)
  {
    hide SlotOf, First, RunThenMatch, Next, Slot;
    SlotOfThree(hval0, data[ip], data[ip + 1], data[ip + 2]);
    if ip == 32 {
      SamePlaces(data);
    } else {
      SlotKept(data, ip);
      if found {
        Differ(data, ip, ref);
      }
    }
  }

  lemma FullAtMatch(data: seq<byte>, ip: nat, ref: int, lit: nat, out: seq<byte>, done: seq<byte>)
    requires IsMatch(data, ip, ref) && Open(data, ip, lit, out) && |done| == |out| - 1 && done <= out
    ensures lit == 0 ==> IsFullAtMatch(data, done)
  {
    assert done == out[..|out| - 1];
  }

  lemma RunIsLong(data: seq<byte>)
    ensures RunThenMatch(data) ==> |data| == 37
  {
  }

  lemma FirstIsSmall(a: byte, b: byte)
    ensures First(a, b) % 0x1_0000 == First(a, b)
  {
  }

  lemma Differ(data: seq<byte>, i: nat, ref: nat)
    requires RunThenMatch(data) && ref < i < 32
    ensures data[i] != data[ref]
  {
  }

  lemma SlotKept(data: seq<byte>, i: nat)
    requires RunThenMatch(data) && i < 32
    ensures i == 1 <==> SlotOf(data[i], data[i + 1], data[i + 2]) == SlotOf(1, 2, 3)
  {
    if i != 1 {
      OtherSlots(data, i);
    }
  }

  lemma SamePlaces(data: seq<byte>)
    requires RunThenMatch(data)
    ensures data[32] == data[1] == 1 && data[33] == data[2] == 2 && data[34] == data[3] == 3
  {
  }

  /** What the library promises: data that was compressed, whatever the table held, is restored in full. */
  method RoundTrip(input: array<byte>, inLen: nat, packed: array<byte>, packedLen: nat, restored: array<byte>,
                   htab: array<int>)
    returns (n: nat, m: nat)
    requires input != packed && input != restored && packed != restored
    requires htab as object !in {input, packed, restored}
    requires 2 <= inLen <= input.Length && packedLen < packed.Length && inLen <= restored.Length
    requires htab.Length == HSIZE
    modifies packed, restored, htab
    ensures n <= packedLen
    ensures n > 0 ==> m == inLen && restored[..inLen] == input[..inLen]
    ensures packedLen >= inLen + inLen / 32 + 4 ==> n > 0
  {
    n := Compress(input, inLen, packed, packedLen, htab);
    m := 0;
    if n > 0 {
      var errno;
      m, errno := Decompress(packed, n, restored, inLen);
    }
  }
}
