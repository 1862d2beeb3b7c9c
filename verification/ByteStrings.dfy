/** Bytes, fixed-width unsigned integers and their little-endian encodings. */
module ByteStrings {
  type Byte = x: int | 0 <= x < 0x100
  type U32 = x: int | 0 <= x < 0x1_0000_0000
  type U64 = x: int | 0 <= x < 0x1_0000_0000_0000_0000
  type I32 = x: int | -0x8000_0000 <= x < 0x8000_0000

  type Bytes = seq<Byte>

  /** A SHA-256 digest, a transaction id, an x-only key: any 32 bytes. */
  type Digest = b: Bytes | |b| == 32 witness seq(32, _ => 0)

  /** SHA-256 stays uninterpreted: every result holds for any such function. */
  type Sha256 = Bytes -> Digest

  function Pow256(k: nat): (p: nat)
    ensures p > 0
  {
    if k == 0 then 1 else 256 * Pow256(k - 1)
  }

  lemma Pow256Widths()
    ensures Pow256(2) == 0x1_0000
    ensures Pow256(4) == 0x1_0000_0000
    ensures Pow256(8) == 0x1_0000_0000_0000_0000
  {
    assert Pow256(2) == 256 * Pow256(1);
    assert Pow256(4) == 256 * Pow256(3) && Pow256(3) == 256 * Pow256(2);
    assert Pow256(8) == 256 * Pow256(7) && Pow256(7) == 256 * Pow256(6);
    assert Pow256(6) == 256 * Pow256(5) && Pow256(5) == 256 * Pow256(4);
  }

  /** The low k bytes of n, least significant first: a truncating cast followed by `to_le_bytes`. */
  function Le(n: nat, k: nat): (b: Bytes)
    ensures |b| == k
    decreases k
  {
    if k == 0 then [] else [n % 256] + Le(n / 256, k - 1)
  }

  /** The low k bytes of n, most significant first: `to_be_bytes`, `int.to_bytes(k, "big")`. */
  function Be(n: nat, k: nat): (b: Bytes)
    ensures |b| == k
    decreases k
  {
    if k == 0 then [] else Be(n / 256, k - 1) + [n % 256]
  }

  /** The value of a little-endian byte string: `from_le_bytes`. */
  function FromLe(b: Bytes): (n: nat)
    ensures n < Pow256(|b|)
  {
    if b == [] then 0 else b[0] + 256 * FromLe(b[1..])
  }

  lemma {:induction false} FromLeInvertsLe(n: nat, k: nat)
    requires n < Pow256(k)
    ensures FromLe(Le(n, k)) == n
    decreases k
  {
    if k > 0 {
      FromLeInvertsLe(n / 256, k - 1);
      assert Le(n, k)[1..] == Le(n / 256, k - 1);
    }
  }

  lemma {:induction false} LeInvertsFromLe(b: Bytes)
    ensures Le(FromLe(b), |b|) == b
  {
    if b != [] {
      LeInvertsFromLe(b[1..]);
      var high := FromLe(b[1..]);
      assert (b[0] + 256 * high) % 256 == b[0] && (b[0] + 256 * high) / 256 == high;
      assert Le(FromLe(b), |b|) == [b[0]] + Le(high, |b| - 1);
    }
  }

  lemma U32RoundTrip(n: U32)
    ensures FromLe(Le(n, 4)) == n
  {
    Pow256Widths();
    FromLeInvertsLe(n, 4);
  }

  lemma U64RoundTrip(n: U64)
    ensures FromLe(Le(n, 8)) == n
  {
    Pow256Widths();
    FromLeInvertsLe(n, 8);
  }

  /** `from_le_bytes` of four bytes. */
  function U32At(b: Bytes, at: nat): (n: U32)
    requires at + 4 <= |b|
  {
    Pow256Widths();
    FromLe(b[at..at + 4])
  }

  /** `from_le_bytes` of eight bytes. */
  function U64At(b: Bytes, at: nat): (n: U64)
    requires at + 8 <= |b|
  {
    Pow256Widths();
    FromLe(b[at..at + 8])
  }
}
