/** Bytes, and fixed-width little-endian integers as the x86 hosts of the program lay them out. */
module Bytes {

  type byte = b: int | 0 <= b < 256

  /** 256 to the power k: the number of values k bytes can hold. */
  function Span(k: nat): (n: int)
    ensures n >= 1
  {
    if k == 0 then 1 else 256 * Span(k - 1)
  }

  /** The k least significant bytes of n, least significant first. */
  function ToLE(n: nat, k: nat): (s: seq<byte>)
    ensures |s| == k
  {
    if k == 0 then [] else [n % 256] + ToLE(n / 256, k - 1)
  }

  function FromLE(s: seq<byte>): (n: nat)
    ensures n < Span(|s|)
  {
    if s == [] then 0 else s[0] + 256 * FromLE(s[1..])
  }

  lemma {:induction false} FromToLE(n: nat, k: nat)
    requires n < Span(k)
    ensures FromLE(ToLE(n, k)) == n
  {
    if k > 0 {
      FromToLE(n / 256, k - 1);
      assert ToLE(n, k)[1..] == ToLE(n / 256, k - 1);
    }
  }

  /** Two's complement: the range of a signed integer of k bytes. */
  predicate FitsSigned(v: int, k: nat) {
    -Span(k) <= 2 * v < Span(k)
  }

  function ToSigned(v: int, k: nat): (s: seq<byte>)
    requires FitsSigned(v, k)
    ensures |s| == k
  {
    ToLE(if v < 0 then v + Span(k) else v, k)
  }

  function FromSigned(s: seq<byte>): (v: int)
    ensures FitsSigned(v, |s|)
  {
    var n := FromLE(s);
    if 2 * n < Span(|s|) then n else n - Span(|s|)
  }

  lemma FromToSigned(v: int, k: nat)
    requires FitsSigned(v, k)
    ensures FromSigned(ToSigned(v, k)) == v
  {
    FromToLE(if v < 0 then v + Span(k) else v, k);
  }

  /** Four bytes, most significant first. */
  function ToBE4(n: nat): (s: seq<byte>)
    requires n < 0x1_0000_0000
    ensures |s| == 4
  {
    [n / 0x100_0000, n / 0x1_0000 % 256, n / 256 % 256, n % 256]
  }

  function FromBE4(s: seq<byte>): (n: nat)
    requires |s| == 4
  {
    var a: int, b: int, c: int, d: int := s[0], s[1], s[2], s[3];
    a * 0x100_0000 + b * 0x1_0000 + c * 256 + d
  }

  lemma FromToBE4(n: nat)
    requires n < 0x1_0000_0000
    ensures FromBE4(ToBE4(n)) == n
  {
    assert n == n / 256 * 256 + n % 256;
    assert n / 256 == n / 256 / 256 * 256 + n / 256 % 256;
    assert n / 0x1_0000 == n / 256 / 256 && n / 0x100_0000 == n / 0x1_0000 / 256;
  }

  lemma AppendAssociates<T>(a: seq<T>, b: seq<T>, c: seq<T>)
    ensures a + b + c == a + (b + c)
  {
  }

  lemma AppendPrefix<T>(a: seq<T>, b: seq<T>)
    ensures (a + b)[..|a|] == a && (a + b)[|a|..] == b
  {
  }

  lemma SliceOfSlice<T>(s: seq<T>, lo: nat, hi: nat, i: nat, j: nat)
    requires lo <= hi <= |s| && i <= j <= hi - lo
    ensures s[lo..hi][i..j] == s[lo + i..lo + j]
  {
    var a, b := s[lo..hi][i..j], s[lo + i..lo + j];
    assert |a| == |b|;
    assert forall k :: 0 <= k < |a| ==> a[k] == b[k];
  }

  lemma SplitSlice<T>(s: seq<T>, p: nat, q: nat)
    requires p <= q <= |s|
    ensures s[p..] == s[p..q] + s[q..]
  {
  }

  lemma TailParts<T>(s: seq<T>, p: nat, a: seq<T>, b: seq<T>)
    requires p <= |s| && s[p..] == a + b
    ensures p + |a| <= |s| && s[p..p + |a|] == a && s[p + |a|..] == b
  {
    SplitSlice(s, p, p + |a|);
    AppendPrefix(a, b);
    AppendPrefix(s[p..p + |a|], s[p + |a|..]);
  }

  function Join(parts: seq<seq<byte>>): seq<byte> { if parts == [] then [] else parts[0] + Join(parts[1..]) }
}
