/** Bytes and binary words. */
module Bytes {

  type Byte = b: int | 0 <= b < 256

  /** Bits, least significant first. */
  function Bits(n: nat, k: nat): (b: seq<bool>)
    ensures |b| == k
  {
    if k == 0 then [] else [n % 2 == 1] + Bits(n / 2, k - 1)
  }

  function Nat(b: seq<bool>): nat {
    if b == [] then 0 else (if b[0] then 1 else 0) + 2 * Nat(b[1..])
  }

  function Pow2(k: nat): (p: nat)
    ensures p > 0
  {
    if k == 0 then 1 else 2 * Pow2(k - 1)
  }

  lemma {:induction false} BitsNat(b: seq<bool>)
    ensures Bits(Nat(b), |b|) == b && Nat(b) < Pow2(|b|)
  {
    if b != [] {
      BitsNat(b[1..]);
      assert Nat(b) / 2 == Nat(b[1..]);
      assert b == [b[0]] + b[1..];
    }
  }

  lemma {:induction false} NatBits(n: nat, k: nat)
    requires n < Pow2(k)
    ensures Nat(Bits(n, k)) == n
  {
    if k > 0 {
      NatBits(n / 2, k - 1);
      assert Bits(n, k)[1..] == Bits(n / 2, k - 1);
    }
  }

  /** The top bit of a number that needs all `k` bits is set. */
  lemma {:induction false} TopBit(n: nat, k: nat)
    requires k > 0 && Pow2(k - 1) <= n < Pow2(k)
    ensures Bits(n, k)[k - 1]
  {
    if k > 1 { TopBit(n / 2, k - 1); }
  }

  lemma {:induction false} Pow2Add(a: nat, b: nat)
    ensures Pow2(a + b) == Pow2(a) * Pow2(b)
  {
    if a > 0 { Pow2Add(a - 1, b); }
  }

  lemma Pow2Values()
    ensures Pow2(8) == 256 && Pow2(16) == 65536 && Pow2(31) == 2147483648 && Pow2(32) == 4294967296
  {
    assert Pow2(8) == 256;
    Pow2Add(8, 8);
    Pow2Add(16, 16);
    assert Pow2(32) == 2 * Pow2(31);
  }
}
