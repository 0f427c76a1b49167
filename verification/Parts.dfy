/** Quotients and remainders at the widths the page table code uses, each given by its parts. */
module Parts {
  lemma By2(w: nat, q: nat, r: nat)
    requires w == q * 2 + r && r < 2
    ensures w / 2 == q && w % 2 == r
  {}

  lemma By4(w: nat, q: nat, r: nat)
    requires w == q * 4 + r && r < 4
    ensures w / 4 == q && w % 4 == r
  {}

  lemma By8(w: nat, q: nat, r: nat)
    requires w == q * 8 + r && r < 8
    ensures w / 8 == q && w % 8 == r
  {}

  lemma By256(w: nat, q: nat, r: nat)
    requires w == q * 256 + r && r < 256
    ensures w / 256 == q && w % 256 == r
  {}

  lemma By1K(w: nat, q: nat, r: nat)
    requires w == q * 1024 + r && r < 1024
    ensures w / 1024 == q && w % 1024 == r
  {}

  lemma By4K(w: nat, q: nat, r: nat)
    requires w == q * 0x1000 + r && r < 0x1000
    ensures w / 0x1000 == q && w % 0x1000 == r
  {}

  lemma By1M(w: nat, q: nat, r: nat)
    requires w == q * 0x10_0000 + r && r < 0x10_0000
    ensures w / 0x10_0000 == q && w % 0x10_0000 == r
  {}

  lemma By4M(w: nat, q: nat, r: nat)
    requires w == q * 0x40_0000 + r && r < 0x40_0000
    ensures w / 0x40_0000 == q && w % 0x40_0000 == r
  {}

  lemma By4G(w: nat, q: nat, r: nat)
    requires w == q * 0x1_0000_0000 + r && r < 0x1_0000_0000
    ensures w / 0x1_0000_0000 == q && w % 0x1_0000_0000 == r
  {}

  lemma By16G(w: nat, q: nat, r: nat)
    requires w == q * 0x4_0000_0000 + r && r < 0x4_0000_0000
    ensures w / 0x4_0000_0000 == q && w % 0x4_0000_0000 == r
  {}

  // Cutting at 2^32 or at 2^34 leaves multiples of 4096, and of 1024, as they are.
  lemma Cut4G(k: nat, low: nat)
    requires low < 0x1000
    ensures (k * 0x1000 + low) % 0x1_0000_0000 == k % 0x10_0000 * 0x1000 + low
    ensures (k * 0x1000 + low) / 0x1_0000_0000 == k / 0x10_0000
  {
    By4G(k * 0x1000 + low, k / 0x10_0000, k % 0x10_0000 * 0x1000 + low);
  }

  lemma Cut4GFine(k: nat, low: nat)
    requires low < 1024
    ensures (k * 1024 + low) % 0x1_0000_0000 == k % 0x40_0000 * 1024 + low
  {
    By4G(k * 1024 + low, k / 0x40_0000, k % 0x40_0000 * 1024 + low);
  }

  lemma Cut16G(k: nat)
    ensures k * 0x1000 % 0x4_0000_0000 == k % 0x40_0000 * 0x1000
  {
    By16G(k * 0x1000, k / 0x40_0000, k % 0x40_0000 * 0x1000);
  }

  // The 22 low bits of a page number are its 20 low bits and the two above them.
  lemma TwentyTwoBits(k: nat)
    ensures k % 0x40_0000 == k / 0x10_0000 % 4 * 0x10_0000 + k % 0x10_0000
  {
  }

  // Adding to a sum cut to 32 bits
  lemma AddWrapped(a: int, b: int)
    ensures (a % 0x1_0000_0000 + b) % 0x1_0000_0000 == (a + b) % 0x1_0000_0000
  {
  }

  // A 32-bit int stored as unsigned
  lemma AsUnsigned(x: int)
    requires -0x8000_0000 <= x < 0x8000_0000
    ensures x % 0x1_0000_0000 == if x < 0 then x + 0x1_0000_0000 else x
  {
  }

  lemma PageSum(c: nat, n: nat)
    ensures c * 0x1000 % 0x1000 == 0 && c * 0x1000 / 0x1000 == c
    ensures (c * 0x1000 + n * 0x1000) / 0x1000 == c + n
  {
  }
}
