/** Bytes and sequences of them. */
module Bytes {
  type Byte = x: int | 0 <= x < 256
  type Bytes = seq<Byte>

  function Fill(n: nat, b: Byte): (r: Bytes)
    ensures |r| == n && forall k :: 0 <= k < n ==> r[k] == b
  {
    seq(n, _ => b)
  }

  /** A copy of bytes into a buffer. */
  function Patch(h: Bytes, at: nat, s: Bytes): (r: Bytes)
    requires at + |s| <= |h|
    ensures |r| == |h| && forall k :: 0 <= k < |h| ==> r[k] == if at <= k < at + |s| then s[k - at] else h[k]
    ensures r[..at + |s|] == h[..at] + s
  {
    var r := h[..at] + s + h[at + |s|..];
    assert r[..at + |s|] == h[..at] + s;
    r
  }
}
