/** Bytes and little-endian integers (`to_le_bytes`, `from_le_bytes`). */
module LittleEndian {

  type Byte = b: int | 0 <= b < 256

  function Pow256(k: nat): (p: nat)
    ensures p > 0
  {
    if k == 0 then 1 else 256 * Pow256(k - 1)
  }

  /** The `width` low bytes of `n`, least significant first; higher bytes are dropped. */
  function ToBytes(n: nat, width: nat): (b: seq<Byte>)
    ensures |b| == width
  {
    if width == 0 then [] else
      var low: Byte := n % 256;
      [low] + ToBytes(n / 256, width - 1)
  }

  function FromBytes(b: seq<Byte>): nat {
    if b == [] then 0 else b[0] + 256 * FromBytes(b[1..])
  }

  /** The first byte is the lowest. */
  lemma Weights(b: seq<Byte>)
    ensures |b| == 2 ==> FromBytes(b) == b[0] as nat + 0x100 * b[1] as nat
    ensures |b| == 4 ==>
              FromBytes(b) == b[0] as nat + 0x100 * b[1] as nat + 0x1_0000 * b[2] as nat + 0x100_0000 * b[3] as nat
    ensures |b| == 8 ==>
              FromBytes(b) == FromBytes(b[..4]) + 0x1_0000_0000 * FromBytes(b[4..])
  {
    if |b| >= 2 { TwoMore(b); }
    if |b| >= 4 { TwoMore(b[2..]); }
    if |b| == 8 {
      TwoMore(b[4..]);
      TwoMore(b[6..]);
      TwoMore(b[..4]);
      TwoMore(b[..4][2..]);
      assert b[4..][2..] == b[6..] && b[2..][2..] == b[4..];
      assert b[..4][2..][2..] == [] && b[6..][2..] == [];
    }
  }

  lemma TwoMore(b: seq<Byte>)
    requires |b| >= 2
    ensures FromBytes(b) == b[0] as nat + 0x100 * b[1] as nat + 0x1_0000 * FromBytes(b[2..])
  {
    assert b[1..][1..] == b[2..];
  }

  lemma {:induction false} BytesRoundTrip(n: nat, width: nat)
    requires n < Pow256(width)
    ensures FromBytes(ToBytes(n, width)) == n
  {
    if width > 0 {
      BytesRoundTrip(n / 256, width - 1);
      assert ToBytes(n, width)[1..] == ToBytes(n / 256, width - 1);
    }
  }

  lemma Pow256Values()
    ensures Pow256(4) == 0x1_0000_0000
    ensures Pow256(8) == 0x1_0000_0000_0000_0000
  {
    assert Pow256(2) == 0x1_0000 && Pow256(3) == 0x100_0000 && Pow256(5) == 0x100_0000_0000;
    assert Pow256(6) == 0x1_0000_0000_0000 && Pow256(7) == 0x100_0000_0000_0000;
  }
}
