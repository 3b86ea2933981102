/** Bytes, Python slicing and big-endian integers (struct ">B"/">I", int.to_bytes/from_bytes). */
module Bytes {

  type byte = x: int | 0 <= x < 256

  const TWO32: nat := 0x1_0000_0000

  /** Python's `s[a:b]` for 0 <= a <= b: out-of-range ends are clamped, never an error. */
  function Slice(s: seq<byte>, a: nat, b: nat): (r: seq<byte>)
    requires a <= b
    ensures |r| <= b - a
    ensures b <= |s| ==> r == s[a..b]
    ensures |s| <= a ==> r == []
  {
    var lo := if a < |s| then a else |s|;
    var hi := if b < |s| then b else |s|;
    s[lo..hi]
  }

  /** Slicing after a prefix is slicing the rest. */
  lemma SliceAfter(p: seq<byte>, s: seq<byte>, a: nat, b: nat)
    requires a <= b
    ensures Slice(p + s, |p| + a, |p| + b) == Slice(s, a, b)
  {
    var lo := if a < |s| then a else |s|;
    var hi := if b < |s| then b else |s|;
    assert (p + s)[|p| + lo..|p| + hi] == s[lo..hi];
  }

  /** `struct.pack(">I", n)`, `n.to_bytes(4, byteorder='big')`. */
  function U32(n: nat): (r: seq<byte>)
    requires n < TWO32
    ensures |r| == 4
  {
    [n / 0x100_0000, (n / 0x1_0000) % 256, (n / 256) % 256, n % 256]
  }

  /** `int.from_bytes(bs, byteorder='big')` for any number of bytes; `struct.unpack(">I", …)` on four. */
  function FromBigEndian(bs: seq<byte>): (n: nat)
  {
    if bs == [] then 0 else FromBigEndian(bs[..|bs| - 1]) * 256 + bs[|bs| - 1]
  }

  /** Reading back what U32 wrote gives the number back. */
  lemma FromU32(n: nat)
    requires n < TWO32
    ensures FromBigEndian(U32(n)) == n
  {
    var b := U32(n);
    assert FromBigEndian(b[..1]) == b[0] by {
      assert b[..1][..0] == [];
    }
    assert b[..2][..1] == b[..1] && b[..3][..2] == b[..2] && b[..4] == b;
    var x0, x1, x2, x3: int := b[0], b[1], b[2], b[3];
    assert FromBigEndian(b[..2]) == x0 * 256 + x1;
    assert FromBigEndian(b[..3]) == (x0 * 256 + x1) * 256 + x2;
    assert FromBigEndian(b) == ((x0 * 256 + x1) * 256 + x2) * 256 + x3;
    var q1, q2, q3 := n / 256, n / 0x1_0000, n / 0x100_0000;
    assert q2 == q1 / 256 && q3 == q2 / 256;
    assert q3 * 256 + q2 % 256 == q2;
    assert q2 * 256 + q1 % 256 == q1;
    assert q1 * 256 + n % 256 == n;
  }

  /** The concatenation of a list of byte strings: `b"".join(fields)`. */
  function Concat(parts: seq<seq<byte>>): (r: seq<byte>)
  {
    if parts == [] then [] else parts[0] + Concat(parts[1..])
  }
}
