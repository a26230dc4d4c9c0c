/** Bit operations on a 64-bit unsigned word, held as an integer below 2^64. */
module Word64 {
  import opened Basics

  const BITS := 64

  /** word & (1 << d) != 0 */
  predicate Bit(word: nat, d: nat) {
    if d == 0 then word % 2 == 1 else Bit(word / 2, d - 1)
  }

  /** word | (1 << d) */
  function SetBit(word: nat, d: nat): nat {
    if d == 0 then word - word % 2 + 1 else 2 * SetBit(word / 2, d - 1) + word % 2
  }

  /** word << s, losing the bits pushed past the top of the word. */
  function ShiftLeft(word: u64, s: nat): u64
    decreases s
  {
    if s == 0 then word else ShiftLeft(word * 2 % TWO_64, s - 1)
  }

  lemma Pow2Of64()
    ensures Pow2(64) == TWO_64
  {
    assert Pow2(8) == 256;
    assert Pow2(16) == TWO_16;
    assert Pow2(24) == 0x100_0000;
    assert Pow2(32) == TWO_32;
    assert Pow2(40) == 0x100_0000_0000;
    assert Pow2(48) == 0x1_0000_0000_0000;
    assert Pow2(56) == 0x100_0000_0000_0000;
  }

  lemma {:induction false} TruncationKeepsLowBits(word: nat, k: nat, d: nat)
    requires d < k
    ensures Bit(word % Pow2(k), d) == Bit(word, d)
  {
    HalfOfRemainder(word, Pow2(k - 1));
    assert Pow2(k) == 2 * Pow2(k - 1);
    hide Pow2;
    if d > 0 {
      TruncationKeepsLowBits(word / 2, k - 1, d - 1);
    }
  }

  /** Truncating to one bit more, then halving, is halving, then truncating. */
  lemma HalfOfRemainder(word: nat, p: nat)
    requires p > 0
    ensures (word % (2 * p)) % 2 == word % 2 && (word % (2 * p)) / 2 == (word / 2) % p
  {
    var m := 2 * p;
    DivisionOf(word, m);
    Associates(p, word / m);
    Halves(word, p * (word / m), word % m);
    ModUnique(word / 2, p, word / m, word % m / 2);
  }

  lemma DivisionOf(x: nat, m: nat)
    requires m > 0
    ensures x == m * (x / m) + x % m && x % m < m && x / m >= 0
  {
  }

  lemma Associates(p: nat, q: nat)
    ensures (2 * p) * q == 2 * (p * q)
  {
  }

  lemma Halves(word: nat, x: int, r: nat)
    requires word == 2 * x + r
    ensures word % 2 == r % 2 && word / 2 == x + r / 2
  {
  }

  lemma ModUnique(x: nat, p: nat, q: nat, r: nat)
    requires p > 0 && r < p && x == p * q + r
    ensures x % p == r
  {
    var k := x / p;
    assert p * k <= x < p * k + p;
    assert q + 1 <= k ==> p * (q + 1) <= p * k;
    assert k + 1 <= q ==> p * (k + 1) <= p * q;
  }

  lemma DoubledBit(word: nat, d: nat)
    ensures Bit(2 * word, d) == (d >= 1 && Bit(word, d - 1))
  {
    assert (2 * word) / 2 == word;
  }

  /** Shifting moves every bit up and fills with zeros. */
  lemma {:induction false} ShiftLeftBit(word: u64, s: nat, d: nat)
    requires d < BITS
    ensures Bit(ShiftLeft(word, s), d) == (d >= s && Bit(word, d - s))
    decreases s
  {
    if s > 0 {
      var once: u64 := word * 2 % TWO_64;
      ShiftLeftBit(once, s - 1, d);
      if d >= s - 1 {
        Pow2Of64();
        TruncationKeepsLowBits(word * 2, 64, d - (s - 1));
        DoubledBit(word, d - (s - 1));
      }
    }
  }

  /** Setting a bit changes that bit alone. */
  lemma {:induction false} SetBitBit(word: nat, d: nat, e: nat)
    ensures Bit(SetBit(word, d), e) == (d == e || Bit(word, e))
  {
    if d > 0 && e > 0 {
      SetBitBit(word / 2, d - 1, e - 1);
    }
  }

  lemma {:induction false} SetBitBound(word: nat, d: nat, k: nat)
    requires d < k && word < Pow2(k)
    ensures SetBit(word, d) < Pow2(k)
  {
    var half := Pow2(k - 1);
    assert word / 2 < half;
    if d > 0 {
      SetBitBound(word / 2, d - 1, k - 1);
      assert SetBit(word, d) == 2 * SetBit(word / 2, d - 1) + word % 2;
    }
  }

  /** word |= 1 << d on the 64-bit word. */
  function SetBit64(word: u64, d: nat): u64
    requires d < BITS
  {
    Pow2Of64();
    SetBitBound(word, d, 64);
    SetBit(word, d)
  }

  lemma {:induction false} ZeroHasNoBits(d: nat)
    ensures !Bit(0, d)
  {
    if d > 0 { ZeroHasNoBits(d - 1); }
  }
}
