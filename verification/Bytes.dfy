// Bytes and the fixed-width integers read from them.
module Bytes {
  newtype byte = x: int | 0 <= x < 256

  type Data = seq<byte>

  // Up to the next multiple of four.
  function Align(n: nat): (a: nat)
    ensures n <= a < n + 4 && a % 4 == 0
  {
    (n + 3) / 4 * 4
  }

  function Be16(d: seq<byte>, off: nat): (v: nat)
    requires off + 2 <= |d|
    ensures v < 0x10000
  {
    d[off] as nat * 256 + d[off + 1] as nat
  }

  function Le16(d: seq<byte>, off: nat): (v: nat)
    requires off + 2 <= |d|
    ensures v < 0x10000
  {
    d[off] as nat + d[off + 1] as nat * 256
  }

  function Le32(d: seq<byte>, off: nat): (v: nat)
    requires off + 4 <= |d|
    ensures v < 0x1_0000_0000
  {
    Le16(d, off) + Le16(d, off + 2) * 0x10000
  }

  // The cast from uint32 to int32.
  function Int32(v: nat): (i: int)
    requires v < 0x1_0000_0000
    ensures -0x8000_0000 <= i < 0x8000_0000
  {
    if v < 0x8000_0000 then v else v - 0x1_0000_0000
  }

  function PutLe16(v: nat): (d: seq<byte>)
    requires v < 0x10000
    ensures |d| == 2 && Le16(d, 0) == v
  {
    [(v % 256) as byte, (v / 256) as byte]
  }

  function PutBe16(v: nat): (d: seq<byte>)
    requires v < 0x10000
    ensures |d| == 2 && Be16(d, 0) == v
  {
    [(v / 256) as byte, (v % 256) as byte]
  }

  function PutLe32(v: nat): (d: seq<byte>)
    requires v < 0x1_0000_0000
    ensures |d| == 4 && Le32(d, 0) == v
  {
    PutLe16(v % 0x10000) + PutLe16(v / 0x10000)
  }

  // Low byte first in netlink and capture headers, high byte first in DNS
  // messages and conntrack attributes.
  lemma ByteOrder(a: byte, b: byte, c: byte, d: byte)
    ensures Le32([a, b, c, d], 0) == a as nat + 0x100 * b as nat + 0x1_0000 * c as nat + 0x100_0000 * d as nat
    ensures Le16([a, b], 0) == a as nat + 0x100 * b as nat
    ensures Be16([a, b], 0) == 0x100 * a as nat + b as nat
  {
  }

  // s stands in d at offset off.
  ghost predicate Stands(d: seq<byte>, off: nat, s: seq<byte>) {
    off + |s| <= |d| && d[off..off + |s|] == s
  }

  lemma StandsAppend(d: seq<byte>, off: nat, a: seq<byte>, b: seq<byte>)
    ensures Stands(d, off, a + b) <==> Stands(d, off, a) && Stands(d, off + |a|, b)
  {
    if off + |a| + |b| <= |d| {
      var whole := d[off..off + |a + b|];
      assert whole == d[off..off + |a|] + d[off + |a|..off + |a| + |b|];
      assert d[off..off + |a|] == whole[..|a|] && d[off + |a|..off + |a| + |b|] == whole[|a|..];
      assert (a + b)[..|a|] == a && (a + b)[|a|..] == b;
    }
  }

  lemma StandsAt(d: seq<byte>, off: nat, s: seq<byte>, i: nat)
    requires Stands(d, off, s) && i < |s|
    ensures d[off + i] == s[i]
  {
    assert d[off + i] == d[off..off + |s|][i];
  }

  lemma StandsLe16(d: seq<byte>, off: nat, v: nat)
    requires v < 0x10000 && Stands(d, off, PutLe16(v))
    ensures off + 2 <= |d| && Le16(d, off) == v
  {
    StandsAt(d, off, PutLe16(v), 0);
    StandsAt(d, off, PutLe16(v), 1);
  }

  lemma StandsLe32(d: seq<byte>, off: nat, v: nat)
    requires v < 0x1_0000_0000 && Stands(d, off, PutLe32(v))
    ensures off + 4 <= |d| && Le32(d, off) == v
  {
    StandsAppend(d, off, PutLe16(v % 0x10000), PutLe16(v / 0x10000));
    StandsLe16(d, off, v % 0x10000);
    StandsLe16(d, off + 2, v / 0x10000);
  }

  lemma StandsInFront(s: seq<byte>, rest: seq<byte>)
    ensures Stands(s + rest, 0, s)
  {
  }
}
