/** Byte strings and the few operations on them that files and overlays share. */
module Bytes {
  type Byte = x: int | 0 <= x < 256

  type Bytes = seq<Byte>

  const SECTOR: nat := 4096

  function Zeros(n: nat): (z: Bytes)
    ensures |z| == n
    ensures forall i :: 0 <= i < n ==> z[i] == 0
  {
    seq(n, _ => 0)
  }

  /** Truncation to exactly `n` bytes, growing with zeros like ftruncate. */
  function Resize(b: Bytes, n: nat): (r: Bytes)
    ensures |r| == n
    ensures forall i :: 0 <= i < n ==> r[i] == if i < |b| then b[i] else 0
  {
    if n <= |b| then b[..n] else b + Zeros(n - |b|)
  }

  /** pwrite: `data` placed at `off`, zero-filling any gap past the end. */
  function Overwrite(b: Bytes, off: nat, data: Bytes): (r: Bytes)
    ensures |r| == if off + |data| > |b| then off + |data| else if off > |b| then off else |b|
    ensures forall i :: 0 <= i < |r| ==>
                          r[i] == if off <= i < off + |data| then data[i - off] else if i < |b| then b[i] else 0
  {
    var head := Resize(b, off);
    var tail := if off + |data| < |b| then b[off + |data|..] else [];
    head + data + tail
  }

  /** Byte strings one after the other. */
  function Flatten(parts: seq<Bytes>): Bytes {
    if parts == [] then [] else parts[0] + Flatten(parts[1..])
  }

  /** How many leading bytes two strings share. */
  function Common(a: Bytes, b: Bytes): (n: nat)
    ensures n <= |a| && n <= |b| && a[..n] == b[..n]
    ensures forall k: nat :: k <= |a| && k <= |b| && a[..k] == b[..k] ==> k <= n
  {
    if a == [] || b == [] || a[0] != b[0] then
      assert forall k: nat :: k <= |a| && k <= |b| && a[..k] == b[..k] && 0 < k ==> a[..k][0] == b[..k][0];
      0
    else
      var n := 1 + Common(a[1..], b[1..]);
      assert forall k: nat :: 0 < k <= |a| && k <= |b| && a[..k] == b[..k] ==> a[1..][..k - 1] == a[..k][1..] && b[1..][..k - 1] == b[..k][1..];
      assert a[..n] == [a[0]] + a[1..][..n - 1];
      assert b[..n] == [b[0]] + b[1..][..n - 1];
      n
  }

  lemma SliceOfSlice(s: Bytes, at: nat, len: nat, k: nat, n: nat)
    requires at + len <= |s| && k + n <= len
    ensures s[at..at + len][k..k + n] == s[at + k..at + k + n]
  {
    var part := s[at..at + len];
    assert forall i :: 0 <= i < len ==> part[i] == s[at + i];
    var sub := part[k..k + n];
    assert forall i :: 0 <= i < n ==> sub[i] == part[k + i];
  }
}
