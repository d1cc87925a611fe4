/** Byte strings and the fixed-width integers stored in them. */
module ByteCodec {
  import opened Common

  /** `256^width`: how many values fit in `width` bytes. */
  function Pow256(width: nat): (r: nat)
    ensures r > 0
  {
    if width == 0 then 1 else 256 * Pow256(width - 1)
  }

  /** `to_le_bytes`: least significant byte first. */
  function ToLE(n: nat, width: nat): (r: seq<byte>)
    ensures |r| == width
  {
    if width == 0 then [] else [n % 256] + ToLE(n / 256, width - 1)
  }

  /** `from_le_bytes`. */
  function FromLE(b: seq<byte>): (r: nat)
    ensures r < Pow256(|b|)
  {
    if b == [] then 0 else b[0] + 256 * FromLE(b[1..])
  }

  /** `from_be_bytes`. */
  function FromBE(b: seq<byte>): nat {
    if b == [] then 0 else 256 * FromBE(b[..|b| - 1]) + b[|b| - 1]
  }

  /** `to_be_bytes`. */
  function ToBE(n: nat, width: nat): (r: seq<byte>)
    ensures |r| == width
  {
    if width == 0 then [] else ToBE(n / 256, width - 1) + [n % 256]
  }

  lemma {:induction false} LERoundTrip(n: nat, width: nat)
    requires n < Pow256(width)
    ensures FromLE(ToLE(n, width)) == n
  {
    if width > 0 {
      LERoundTrip(n / 256, width - 1);
      assert ToLE(n, width)[1..] == ToLE(n / 256, width - 1);
    }
  }

  lemma {:induction false} BERoundTrip(n: nat, width: nat)
    requires n < Pow256(width)
    ensures FromBE(ToBE(n, width)) == n
  {
    if width > 0 {
      BERoundTrip(n / 256, width - 1);
      assert ToBE(n, width)[..width - 1] == ToBE(n / 256, width - 1);
    }
  }

  lemma {:induction false} BEInverse(b: seq<byte>)
    ensures ToBE(FromBE(b), |b|) == b
  {
    if b != [] {
      var init, last := b[..|b| - 1], b[|b| - 1];
      BEInverse(init);
      LastDigit(FromBE(init), last);
      assert b == init + [last];
    }
  }

  /** Bytes are what their integer encodes to. */
  lemma {:induction false} LEInverse(b: seq<byte>, width: nat)
    requires |b| == width
    ensures FromLE(b) < Pow256(width) && ToLE(FromLE(b), width) == b
  {
    if width > 0 {
      LEInverse(b[1..], width - 1);
      LastDigit(FromLE(b[1..]), b[0]);
      assert b == [b[0]] + b[1..];
    }
  }

  lemma LastDigit(n: nat, d: byte)
    ensures (256 * n + d) / 256 == n && (256 * n + d) % 256 == d
  {
  }

  lemma {:induction false} BEBound(b: seq<byte>)
    ensures FromBE(b) < Pow256(|b|)
  {
    if b != [] { BEBound(b[..|b| - 1]); }
  }

  lemma Widths()
    ensures Pow256(2) == 0x1_0000 && Pow256(4) == 0x1_0000_0000 && Pow256(8) == TWO_64
  {
    assert Pow256(3) == 256 * Pow256(2);
    assert Pow256(5) == 256 * Pow256(4);
    assert Pow256(6) == 256 * Pow256(5);
    assert Pow256(7) == 256 * Pow256(6);
  }

  /** The bytes from `from` on are as they were. */
  twostate predicate TailKept(buf: array<byte>, from: nat)
    reads buf
  {
    forall i :: from <= i < buf.Length ==> buf[i] == old(buf[i])
  }
}
