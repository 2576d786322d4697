/** Bytes, and copies of bytes over a part of a buffer. */
module Bytes {

  type byte = x: int | 0 <= x < 256

  function One(b: bool): nat {
    if b then 1 else 0
  }

  /** Copies bytes over a buffer at an offset, as memcpy does. */
  function Blit(buf: seq<byte>, off: nat, bytes: seq<byte>): (r: seq<byte>)
    requires off + |bytes| <= |buf|
    ensures |r| == |buf|
  {
    buf[..off] + bytes + buf[off + |bytes|..]
  }

  function Zeros(n: nat): (z: seq<byte>)
    ensures |z| == n
  {
    seq(n, _ => 0)
  }

  lemma BlitApart(buf: seq<byte>, off: nat, bytes: seq<byte>, lo: nat, hi: nat)
    requires off + |bytes| <= |buf| && lo <= hi <= |buf|
    requires hi <= off || off + |bytes| <= lo
    ensures Blit(buf, off, bytes)[lo..hi] == buf[lo..hi]
  {
    var r := Blit(buf, off, bytes);
    forall k | lo <= k < hi ensures r[k] == buf[k] {
      assert k < off || k >= off + |bytes|;
    }
  }

  lemma BlitWithin(buf: seq<byte>, off: nat, bytes: seq<byte>, lo: nat, hi: nat)
    requires lo <= off && off + |bytes| <= hi <= |buf|
    ensures Blit(buf, off, bytes)[lo..hi] == Blit(buf[lo..hi], off - lo, bytes)
  {
    var r := Blit(buf, off, bytes);
    forall k | 0 <= k < hi - lo ensures r[lo..hi][k] == Blit(buf[lo..hi], off - lo, bytes)[k] {
      assert r[lo..hi][k] == r[lo + k];
    }
  }
}
