/** Single bits of an unsigned 32-bit word, and the masks that set a run of low bits. */
module Bits {
  type u8 = x: int | 0 <= x < 0x100
  type u16 = x: int | 0 <= x < 0x1_0000
  type u32 = x: int | 0 <= x < 0x1_0000_0000

  const TWO32: int := 0x1_0000_0000

  /** Arithmetic in uint16_t. */
  function Wrap16(x: int): (r: u16)
    ensures 0 <= x < 0x1_0000 ==> r == x
  {
    x % 0x1_0000
  }

  /** Arithmetic in uint32_t. */
  function Wrap32(x: int): (r: u32)
    ensures 0 <= x < 0x1_0000_0000 ==> r == x
  {
    x % 0x1_0000_0000
  }

  /** Truncation takes away a multiple of the modulus. */
  lemma WrapMeaning(x: int)
    ensures (x - Wrap16(x)) % 0x1_0000 == 0 && (x - Wrap32(x)) % 0x1_0000_0000 == 0
  {
    assert x - x % 0x1_0000 == 0x1_0000 * (x / 0x1_0000);
    assert x - x % 0x1_0000_0000 == 0x1_0000_0000 * (x / 0x1_0000_0000);
  }

  /** Bit `k` of `w`, counted from the least significant. */
  predicate Bit(w: nat, k: nat)
    decreases k
  {
    if k == 0 then w % 2 == 1 else Bit(w / 2, k - 1)
  }

  /** `1 << n`. */
  function Single(n: nat): (s: nat)
    ensures s > 0
  {
    if n == 0 then 1 else 2 * Single(n - 1)
  }

  /** XPERM_SETBITS: bits 0 through n-1. */
  function LowBits(n: nat): nat {
    Single(n) - 1
  }

  /** Bitwise or. */
  function Or(a: nat, b: nat): nat
    decreases a + b
  {
    if a == 0 && b == 0 then 0
    else 2 * Or(a / 2, b / 2) + (if a % 2 == 1 || b % 2 == 1 then 1 else 0)
  }

  /** Bitwise `a & ~b`. */
  function AndNot(a: nat, b: nat): nat {
    if a == 0 then 0
    else 2 * AndNot(a / 2, b / 2) + (if a % 2 == 1 && b % 2 == 0 then 1 else 0)
  }

  lemma Multiple(m: int, d: int)
    requires m > 0
    ensures d >= 1 ==> m * d >= m
    ensures d <= -1 ==> m * d <= -m
  {
    if d >= 1 {
      assert m * d == m + m * (d - 1);
    } else if d <= -1 {
      assert m * d == -m + m * (d + 1);
    }
  }

  lemma Quotient(w: nat, m: nat, q: nat, r: nat)
    requires m > 0 && r < m && w == m * q + r
    ensures w / m == q
  {
    var d := w / m - q;
    assert w == m * (w / m) + w % m;
    assert m * d == m * (w / m) - m * q;
    Multiple(m, d);
  }

  lemma HalfOf(w: nat, s: nat)
    requires s > 0
    ensures w / (2 * s) == w / 2 / s
  {
    var q, r := w / 2 / s, w / 2 % s;
    assert w / 2 == s * q + r;
    assert w == 2 * s * q + (2 * r + w % 2);
    Quotient(w, 2 * s, q, 2 * r + w % 2);
  }

  /** Bit `k` is the digit of weight 2^k. */
  lemma {:induction false} BitIsDigit(w: nat, k: nat)
    ensures Bit(w, k) <==> w / Single(k) % 2 == 1
    decreases k
  {
    if k > 0 {
      BitIsDigit(w / 2, k - 1);
      HalfOf(w, Single(k - 1));
    }
  }

  lemma {:induction false} ZeroBit(k: nat)
    ensures !Bit(0, k)
  {
    if k > 0 {
      ZeroBit(k - 1);
    }
  }

  lemma {:induction false} OrBit(a: nat, b: nat, k: nat)
    ensures Bit(Or(a, b), k) <==> Bit(a, k) || Bit(b, k)
    decreases k
  {
    if a == 0 && b == 0 {
      ZeroBit(k);
    } else if k > 0 {
      assert Or(a, b) / 2 == Or(a / 2, b / 2);
      OrBit(a / 2, b / 2, k - 1);
    }
  }

  lemma {:induction false} OrFits(a: nat, b: nat, n: nat)
    requires a < Single(n) && b < Single(n)
    ensures Or(a, b) < Single(n)
    decreases n
  {
    if n > 0 && (a > 0 || b > 0) {
      OrFits(a / 2, b / 2, n - 1);
    }
  }

  lemma {:induction false} AndNotBit(a: nat, b: nat, k: nat)
    ensures Bit(AndNot(a, b), k) <==> Bit(a, k) && !Bit(b, k)
    decreases k
  {
    if a == 0 {
      ZeroBit(k);
    } else if k > 0 {
      assert AndNot(a, b) / 2 == AndNot(a / 2, b / 2);
      AndNotBit(a / 2, b / 2, k - 1);
    }
  }

  lemma {:induction false} AndNotFits(a: nat, b: nat)
    ensures AndNot(a, b) <= a
  {
    if a > 0 {
      AndNotFits(a / 2, b / 2);
    }
  }

  lemma Width()
    ensures Single(32) == 0x1_0000_0000
  {
    assert Single(8) == 0x100;
    assert Single(16) == 0x1_0000;
    assert Single(24) == 0x100_0000;
  }

  lemma {:induction false} SingleMonotone(m: nat, n: nat)
    requires m <= n
    ensures Single(m) <= Single(n)
  {
    if m < n {
      SingleMonotone(m, n - 1);
    }
  }

  /** `1 << n` inside a word. */
  function Shift1(n: nat): u32
    requires n < 32
  {
    Width();
    SingleMonotone(n + 1, 32);
    Single(n)
  }

  function OrWord(a: u32, b: u32): u32 {
    Width();
    OrFits(a, b, 32);
    Or(a, b)
  }

  function AndNotWord(a: u32, b: u32): u32 {
    AndNotFits(a, b);
    AndNot(a, b)
  }

  /** A difference of two low masks: bits m through n-1. */
  lemma {:induction false} MiddleBits(n: nat, m: nat, w: nat, k: nat)
    requires m <= n && w == LowBits(n) - LowBits(m)
    ensures Bit(w, k) <==> m <= k < n
    decreases k
  {
    if n == 0 {
      ZeroBit(k);
    } else if m == 0 {
      assert w == 2 * LowBits(n - 1) + 1;
      if k > 0 {
        MiddleBits(n - 1, 0, w / 2, k - 1);
      }
    } else {
      assert w == 2 * (LowBits(n - 1) - LowBits(m - 1));
      if k > 0 {
        MiddleBits(n - 1, m - 1, w / 2, k - 1);
      }
    }
  }

  lemma SingleBit(n: nat, k: nat)
    ensures Bit(Single(n), k) <==> k == n
  {
    MiddleBits(n + 1, n, Single(n), k);
  }

  lemma {:induction false} SomeBit(w: nat, n: nat) returns (k: nat)
    requires 0 < w < Single(n)
    ensures k < n && Bit(w, k)
    decreases n
  {
    if w % 2 == 1 {
      k := 0;
    } else {
      k := SomeBit(w / 2, n - 1);
      k := k + 1;
    }
  }

  /** A word is used exactly when one of its bits is set. */
  lemma UsedWord(w: u32)
    ensures w != 0 <==> exists k: nat :: k < 32 && Bit(w, k)
  {
    if w == 0 {
      forall k: nat ensures !Bit(w, k) {
        ZeroBit(k);
      }
    } else {
      Width();
      var k := SomeBit(w, 32);
      assert k < 32;
      assert Bit(w, k);
      assert exists k: nat :: k < 32 && Bit(w, k);
    }
  }
}
