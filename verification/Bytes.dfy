/** Byte strings, big-endian integers, and writing both into a fixed buffer. */
module Bytes {
  import opened Decimals

  type Byte = x: int | 0 <= x < 256

  function Pow256(n: nat): (p: nat)
    ensures p > 0
  {
    if n == 0 then 1 else 256 * Pow256(n - 1)
  }

  /** The low n bytes of v, most significant first. */
  function ToBE(v: nat, n: nat): (s: seq<Byte>)
    ensures |s| == n
  {
    if n == 0 then [] else ToBE(v / 256, n - 1) + [v % 256]
  }

  function FromBE(s: seq<Byte>): nat {
    if s == [] then 0 else 256 * FromBE(s[..|s| - 1]) + s[|s| - 1]
  }

  lemma {:induction false} FromBEBound(s: seq<Byte>)
    ensures FromBE(s) < Pow256(|s|)
  {
    if s != [] {
      FromBEBound(s[..|s| - 1]);
    }
  }

  /** Reading undoes writing for every value that fits. */
  lemma {:induction false} FromToBE(v: nat, n: nat)
    requires v < Pow256(n)
    ensures FromBE(ToBE(v, n)) == v
  {
    if n > 0 {
      FromToBE(v / 256, n - 1);
      assert ToBE(v, n)[..n - 1] == ToBE(v / 256, n - 1);
    }
  }

  /** Writing undoes reading for every byte string. */
  lemma {:induction false} ToFromBE(s: seq<Byte>)
    ensures ToBE(FromBE(s), |s|) == s
  {
    if s != [] {
      var high := s[..|s| - 1];
      ToFromBE(high);
      assert FromBE(s) / 256 == FromBE(high) && FromBE(s) % 256 == s[|s| - 1];
      assert s == high + [s[|s| - 1]];
    }
  }

  lemma DivSplits(v: nat, p: nat)
    requires p > 0
    ensures v / 256 / p == v / (256 * p)
  {
    var q := v / 256 / p;
    var r := v / 256 % p;
    assert v / 256 == q * p + r;
    var low := 256 * r + v % 256;
    assert v == q * (256 * p) + low && 0 <= low < 256 * p;
    QuotientIs(v, 256 * p, q);
  }

  /** Byte k counts from the most significant end. */
  lemma {:induction false} ToBEAt(v: nat, n: nat, k: nat)
    requires k < n
    ensures ToBE(v, n)[k] == v / Pow256(n - 1 - k) % 256
  {
    if k < n - 1 {
      ToBEAt(v / 256, n - 1, k);
      DivSplits(v, Pow256(n - 2 - k));
    }
  }

  lemma Widths()
    ensures Pow256(2) == 0x1_0000 && Pow256(4) == 0x1_0000_0000 && Pow256(8) == 0x1_0000_0000_0000_0000
  {
    assert Pow256(1) == 256;
    assert Pow256(3) == 256 * Pow256(2);
    assert Pow256(4) == 0x1_0000_0000;
    assert Pow256(5) == 256 * Pow256(4);
    assert Pow256(6) == 256 * Pow256(5);
    assert Pow256(7) == 256 * Pow256(6);
  }

  /** `buffer` with `s` written over it from `offset`. */
  function Overlay(buffer: seq<Byte>, offset: nat, s: seq<Byte>): (r: seq<Byte>)
    requires offset + |s| <= |buffer|
    ensures |r| == |buffer|
  {
    buffer[..offset] + s + buffer[offset + |s|..]
  }

  lemma OverlayAt(buffer: seq<Byte>, offset: nat, s: seq<Byte>, k: nat)
    requires offset + |s| <= |buffer| && k < |buffer|
    ensures Overlay(buffer, offset, s)[k] == if offset <= k < offset + |s| then s[k - offset] else buffer[k]
  {
  }

  /** Writing one byte behind what was written extends it. */
  lemma OverlayAppend(buffer: seq<Byte>, offset: nat, s: seq<Byte>, b: Byte)
    requires offset + |s| + 1 <= |buffer|
    ensures Overlay(buffer, offset, s + [b]) == Overlay(buffer, offset, s)[offset + |s| := b]
  {
  }

  method SetBytes(a: array<Byte>, offset: nat, s: seq<Byte>)
    requires offset + |s| <= a.Length
    modifies a
    ensures a[..] == Overlay(old(a[..]), offset, s)
  {
    ghost var was := a[..];
    for i := 0 to |s|
      invariant a[..] == Overlay(was, offset, s[..i])
    {
      OverlayAppend(was, offset, s[..i], s[i]);
      a[offset + i] := s[i];
      assert s[..i + 1] == s[..i] + [s[i]];
    }
    assert s[..|s|] == s;
  }

  /** Writing one byte in front of what was written extends it. */
  lemma OverlayPrepend(buffer: seq<Byte>, offset: nat, b: Byte, s: seq<Byte>)
    requires offset + 1 + |s| <= |buffer|
    ensures Overlay(buffer, offset, [b] + s) == Overlay(buffer, offset + 1, s)[offset := b]
  {
  }

  lemma ToBEUnfolds(v: nat, n: nat, tail: seq<Byte>)
    requires n > 0
    ensures ToBE(v, n) + tail == ToBE(v / 256, n - 1) + ([v % 256] + tail)
  {
  }

  /** Writes the low n bytes of v, the last one first. */
  method SetBE(a: array<Byte>, offset: nat, v: nat, n: nat)
    requires offset + n <= a.Length
    modifies a
    ensures a[..] == Overlay(old(a[..]), offset, ToBE(v, n))
  {
    var i, rest := n, v;
    ghost var was, tail: seq<Byte> := a[..], [];
    assert ToBE(rest, i) + tail == ToBE(v, n);
    while i > 0
      invariant 0 <= i <= n && |tail| == n - i
      invariant a[..] == Overlay(was, offset + i, tail)
      invariant ToBE(rest, i) + tail == ToBE(v, n)
    {
      ToBEUnfolds(rest, i, tail);
      OverlayPrepend(was, offset + i - 1, rest % 256, tail);
      a[offset + i - 1] := rest % 256;
      tail := [rest % 256] + tail;
      i, rest := i - 1, rest / 256;
    }
    assert ToBE(rest, 0) + tail == tail;
  }
}
