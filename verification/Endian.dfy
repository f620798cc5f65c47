/** Big-endian integers of a fixed width, as encoding/binary writes and reads them. */
module Endian {
  import opened Common

  function Pow256(width: nat): (p: nat)
    ensures p > 0
  {
    if width == 0 then 1 else 256 * Pow256(width - 1)
  }

  /** The low `width` octets of a number, most significant first. */
  function PutBE(x: nat, width: nat): (b: Bytes)
    ensures |b| == width
  {
    if width == 0 then [] else PutBE(x / 256, width - 1) + [x % 256]
  }

  function GetBE(b: Bytes): (x: nat)
    ensures x < Pow256(|b|)
  {
    if b == [] then 0 else GetBE(b[..|b| - 1]) * 256 + b[|b| - 1]
  }

  lemma {:induction false} GetPutBE(x: nat, width: nat)
    requires x < Pow256(width)
    ensures GetBE(PutBE(x, width)) == x
  {
    if width > 0 {
      GetPutBE(x / 256, width - 1);
      var b := PutBE(x, width);
      assert b[..|b| - 1] == PutBE(x / 256, width - 1);
    }
  }

  lemma {:induction false} PutGetBE(b: Bytes)
    ensures PutBE(GetBE(b), |b|) == b
  {
    if b != [] {
      PutGetBE(b[..|b| - 1]);
      assert b == b[..|b| - 1] + [b[|b| - 1]];
    }
  }

  lemma Distribute(x: nat, p: nat, g: nat, last: nat)
    ensures (x * p + g) * 256 + last == x * (256 * p) + (g * 256 + last)
  {
  }

  /** The first octet is the most significant one. */
  lemma {:induction false} GetBEFirst(x: byte, b: Bytes)
    ensures GetBE([x] + b) == x * Pow256(|b|) + GetBE(b)
  {
    if b == [] {
      assert [x] + b == [x];
    } else {
      var front, last := b[..|b| - 1], b[|b| - 1];
      GetBEFirst(x, front);
      assert ([x] + b)[..|b|] == [x] + front;
      Distribute(x, Pow256(|front|), GetBE(front), last);
    }
  }

  lemma Widths()
    ensures Pow256(2) == 0x1_0000 && Pow256(4) == 0x1_0000_0000 && Pow256(8) == 0x1_0000_0000_0000_0000
  {
    assert Pow256(1) == 256;
    assert Pow256(3) == 0x100_0000;
    assert Pow256(5) == 0x100_0000_0000;
    assert Pow256(6) == 0x1_0000_0000_0000;
    assert Pow256(7) == 0x100_0000_0000_0000;
  }
}
