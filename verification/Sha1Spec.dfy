/** SHA-1 as FIPS 180-4 defines it: functions, schedule, rounds, padding and digest. */
module Sha1Spec {
  type byte = bv8
  type word = bv32

  datatype Registers = Registers(a: word, b: word, c: word, d: word, e: word)

  type Block = s: seq<byte> | |s| == 64 witness seq(64, _ => 0)

  /** Section 3.2, rotate left. */
  function Rotl(x: word, n: bv5): word {
    (x << n) | (x >> (32 - n as bv6))
  }

  /** Section 4.1.1. */
  function Ch(x: word, y: word, z: word): word {
    (x & y) ^ (!x & z)
  }

  function Parity(x: word, y: word, z: word): word {
    x ^ y ^ z
  }

  function Maj(x: word, y: word, z: word): word {
    (x & y) ^ (x & z) ^ (y & z)
  }

  function F(t: nat, x: word, y: word, z: word): word {
    if t < 20 then Ch(x, y, z)
    else if t < 40 then Parity(x, y, z)
    else if t < 60 then Maj(x, y, z)
    else Parity(x, y, z)
  }

  /** Section 4.2.1. */
  function K(t: nat): word {
    if t < 20 then 0x5a827999
    else if t < 40 then 0x6ed9eba1
    else if t < 60 then 0x8f1bbcdc
    else 0xca62c1d6
  }

  /** The constants are the first 32 bits of the square roots of 2, 3, 5 and 10, divided by 4. */
  lemma KRoots(t: nat)
    ensures var k := K(t) as nat;
            var r := if t < 20 then 2 else if t < 40 then 3 else if t < 60 then 5 else 10;
            k * k <= r * 0x1000_0000_0000_0000 < (k + 1) * (k + 1)
  {
  }

  /** Section 5.2.1: big-endian words of the block. */
  function BigEndian(b0: byte, b1: byte, b2: byte, b3: byte): word {
    ((b0 as word) << 24) | ((b1 as word) << 16) | ((b2 as word) << 8) | (b3 as word)
  }

  /** Section 6.1.2, step 1: the message schedule. */
  function W(m: Block, t: nat): word {
    if t < 16 then BigEndian(m[4 * t], m[4 * t + 1], m[4 * t + 2], m[4 * t + 3])
    else Rotl(W(m, t - 3) ^ W(m, t - 8) ^ W(m, t - 14) ^ W(m, t - 16), 1)
  }

  /** Section 6.1.2, step 3: the temporary T, modulo 2^32. */
  function Temp(rotated: word, f: word, e: word, k: word, w: word): word {
    rotated + f + e + k + w
  }

  function Round(r: Registers, t: nat, w: word): Registers {
    Registers(Temp(Rotl(r.a, 5), F(t, r.b, r.c, r.d), r.e, K(t), w), r.a, Rotl(r.b, 30), r.c, r.d)
  }

  function Rounds(r: Registers, m: Block, t: nat): Registers {
    if t == 0 then r else Round(Rounds(r, m, t - 1), t - 1, W(m, t - 1))
  }

  /** Addition modulo 2^32. */
  function Plus(x: word, y: word): word {
    x + y
  }

  /** Section 6.1.2, step 4. */
  function AddBack(h: Registers, r: Registers): Registers {
    Registers(Plus(h.a, r.a), Plus(h.b, r.b), Plus(h.c, r.c), Plus(h.d, r.d), Plus(h.e, r.e))
  }

  /** Section 6.1.2: the hash value after one more block. */
  function Compress(h: Registers, m: Block): Registers {
    AddBack(h, Rounds(h, m, 80))
  }

  function AsRegisters(s: seq<word>): Registers
    requires |s| == 5
  {
    Registers(s[0], s[1], s[2], s[3], s[4])
  }

  /** Section 5.3.1. */
  const INITIAL := Registers(0x67452301, 0xefcdab89, 0x98badcfe, 0x10325476, 0xc3d2e1f0)

  /** Section 6.1.2 over the first `n` blocks of `m`. */
  function Fold(m: seq<byte>, n: nat): Registers
    requires 64 * n <= |m|
  {
    if n == 0 then INITIAL else Compress(Fold(m, n - 1), m[64 * (n - 1)..64 * n])
  }

  function Zeros(n: nat): (z: seq<byte>)
    ensures |z| == n
  {
    seq(n, _ => 0)
  }

  function LowByte(n: nat): byte {
    (n % 256) as byte
  }

  /** `n` as `k` big-endian bytes. */
  function BytesOf(n: nat, k: nat): (s: seq<byte>)
    ensures |s| == k
  {
    if k == 0 then [] else BytesOf(n / 256, k - 1) + [LowByte(n)]
  }

  /** Section 5.1.1: how many zero bytes bring the length to 56 modulo 64. */
  function PadZeros(length: nat): (z: nat)
    ensures z < 64 && (length + 1 + z + 8) % 64 == 0
  {
    if length % 64 < 56 then 55 - length % 64 else 119 - length % 64
  }

  /** Section 5.1.1; the length field is the bit length modulo 2^64. */
  function Pad(m: seq<byte>): (p: seq<byte>)
    ensures |p| == |m| + 1 + PadZeros(|m|) + 8
  {
    m + [0x80] + Zeros(PadZeros(|m|)) + BytesOf(8 * |m| % 0x1_0000_0000_0000_0000, 8)
  }

  function WordBytes(w: word): (s: seq<byte>)
    ensures |s| == 4
  {
    [((w >> 24) & 255) as byte, ((w >> 16) & 255) as byte, ((w >> 8) & 255) as byte, (w & 255) as byte]
  }

  /** The bytes of a word, most significant first. */
  lemma WordBytesBigEndian(w: word)
    ensures var b := WordBytes(w); BigEndian(b[0], b[1], b[2], b[3]) == w
  {
  }

  function RegisterBytes(r: Registers): (s: seq<byte>)
    ensures |s| == 20
  {
    WordBytes(r.a) + WordBytes(r.b) + WordBytes(r.c) + WordBytes(r.d) + WordBytes(r.e)
  }

  /** The digest of a message. */
  function Sha1(m: seq<byte>): seq<byte> {
    var p := Pad(m);
    RegisterBytes(Fold(p, |p| / 64))
  }
}
