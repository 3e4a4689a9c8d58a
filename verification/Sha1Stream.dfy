/** The streaming interface of sha1.c: Sha1Initialise, Sha1Update and Sha1Finalise. */
module Sha1Stream {
  import opened Bits
  import opened Sha1Spec
  import opened Sha1Transform

  const TWO64 := 0x1_0000_0000_0000_0000

  /** The blocks already folded do not depend on what follows them. */
  lemma {:induction false} FoldPrefix(m: seq<byte>, x: seq<byte>, n: nat)
    requires 64 * n <= |m|
    ensures Fold(m + x, n) == Fold(m, n)
  {
    hide Compress;
    if n > 0 {
      FoldPrefix(m, x, n - 1);
      assert (m + x)[64 * (n - 1)..64 * n] == m[64 * (n - 1)..64 * n];
    }
  }

  /** The two count words after `size` more bytes. */
  function CountLow(low: u32, size: u32): u32 {
    Wrap32(low + Wrap32(size * 8))
  }

  function CountHigh(low: u32, high: u32, size: u32): u32 {
    var carry := if CountLow(low, size) < Wrap32(size * 8) then 1 else 0;
    Wrap32(Wrap32(high + carry) + size / 0x2000_0000)
  }

  lemma HighWraps(high: u32, carry: nat, part: nat)
    ensures Wrap32(Wrap32(high + carry) + part) == (high + carry + part) % TWO32
  {
  }

  lemma Combine(low: u32, n: nat)
    ensures (low + TWO32 * n) % TWO64 == low + TWO32 * (n % TWO32)
  {
    var q := n / TWO32;
    assert n == q * TWO32 + n % TWO32;
    var r := low + TWO32 * (n % TWO32);
    assert low + TWO32 * n == TWO64 * q + r;
    assert 0 <= r < TWO64;
  }

  /** Carry and high part together make a 64-bit addition. */
  lemma CountAdds(low: u32, high: u32, size: u32)
    ensures CountLow(low, size) + TWO32 * CountHigh(low, high, size) == (low + TWO32 * high + 8 * size) % TWO64
  {
    var shifted := Wrap32(size * 8);
    var part := size / 0x2000_0000;
    assert 8 * size == shifted + TWO32 * part;
    var sum := low + shifted;
    var carry := sum / TWO32;
    assert 0 <= carry <= 1;
    assert CountLow(low, size) == sum - TWO32 * carry;
    assert CountLow(low, size) < shifted <==> carry == 1;
    HighWraps(high, carry, part);
    var total := low + TWO32 * high + 8 * size;
    assert total == CountLow(low, size) + TWO32 * (high + carry + part);
    Combine(CountLow(low, size), high + carry + part);
  }

  /** Count[0] >> 3 & 63 is the number of buffered bytes. */
  lemma Eighth(low: int, a: int)
    requires low == 8 * a
    ensures low / 8 == a
  {
  }

  lemma AddBlocks(a: nat, x: nat)
    ensures (a + 64 * x) % 64 == a % 64
  {
  }

  lemma Buffered(low: u32, high: u32, length: nat)
    requires low + TWO32 * high == 8 * length % TWO64
    ensures low / 8 % 64 == length % 64
  {
    var q := 8 * length / TWO64;
    assert 8 * length == TWO64 * q + TWO32 * high + low;
    var a := length - 0x2000_0000 * high - 0x2000_0000_0000_0000 * q;
    Eighth(low, a);
    AddBlocks(a, 0x80_0000 * high + 0x80_0000_0000_0000 * q);
  }

  /** Count words as eight bytes, most significant first. */
  function CountBytes(low: u32, high: u32): seq<byte> {
    BytesOf(high, 4) + BytesOf(low, 4)
  }

  lemma DropLowByte(low: nat, x: nat)
    ensures (low + 256 * x) / 256 == low / 256 + x && (low + 256 * x) % 256 == low % 256
  {
  }

  function Power256(n: nat): (p: nat)
    ensures p > 0
  {
    if n == 0 then 1 else 256 * Power256(n - 1)
  }

  lemma MulAssociates(s: nat, high: nat)
    ensures 256 * s * high == 256 * (s * high)
  {
  }

  lemma SameLowByte(low: nat, x: nat)
    ensures LowByte(low + 256 * x) == LowByte(low)
  {
    DropLowByte(low, x);
  }

  lemma PowerStep(j: nat)
    ensures Power256(0) == 1 && (j > 0 ==> Power256(j) == 256 * Power256(j - 1))
  {
  }

  lemma BytesStep(n: nat, k: nat)
    ensures BytesOf(n, 0) == [] && BytesOf(n, k + 1) == BytesOf(n / 256, k) + [LowByte(n)]
  {
  }

  lemma {:induction false} BytesSplit(low: nat, high: nat, k: nat, j: nat, scale: nat)
    requires scale == Power256(j) && low < scale
    ensures BytesOf(low + scale * high, k + j) == BytesOf(high, k) + BytesOf(low, j)
    decreases j
  {
    hide LowByte, BytesOf, Power256;
    PowerStep(j);
    if j == 0 {
      BytesStep(low, 0);
      assert scale * high == high && low == 0;
    } else {
      var s := Power256(j - 1);
      SameLowByte(low, s * high);
      MulAssociates(s, high);
      DropLowByte(low, s * high);
      BytesSplit(low / 256, high, k, j - 1, s);
      BytesStep(low + scale * high, k + j - 1);
      BytesStep(low, j - 1);
    }
  }

  /** The number with these digits to base 256 behind `h`, most significant first. */
  function Positional(ds: seq<nat>, h: nat): nat {
    if ds == [] then h else 256 * Positional(ds[..|ds| - 1], h) + ds[|ds| - 1]
  }

  predicate Digits(ds: seq<nat>) {
    forall i :: 0 <= i < |ds| ==> ds[i] < 256
  }

  function AsBytes(ds: seq<nat>): (s: seq<byte>)
    requires Digits(ds)
    ensures |s| == |ds|
  {
    seq(|ds|, i requires 0 <= i < |ds| => ds[i] as byte)
  }

  lemma LastDigit(m: nat, d: nat)
    requires d < 256
    ensures (256 * m + d) / 256 == m && LowByte(256 * m + d) == d as byte
  {
    assert (256 * m + d) % 256 == d;
  }

  /** The bytes of a number are its lowest digits to base 256, most significant first. */
  lemma {:induction false} BytesAreDigits(ds: seq<nat>, h: nat)
    requires Digits(ds)
    ensures BytesOf(Positional(ds, h), |ds|) == AsBytes(ds)
  {
    hide LowByte, BytesOf;
    if ds == [] {
      BytesStep(h, 0);
    } else {
      var init, d := ds[..|ds| - 1], ds[|ds| - 1];
      BytesAreDigits(init, h);
      LastDigit(Positional(init, h), d);
      BytesStep(Positional(ds, h), |init|);
      assert AsBytes(ds) == AsBytes(init) + [d as byte];
    }
  }

  lemma CountBytesAreLength(low: u32, high: u32)
    ensures CountBytes(low, high) == BytesOf(low + TWO32 * high, 8)
  {
    assert Power256(4) == TWO32;
    BytesSplit(low, high, 4, 4, TWO32);
  }

  /** memcpy into the buffer. */
  method CopyInto(buffer: array<byte>, at: nat, data: seq<byte>)
    requires at + |data| <= buffer.Length
    modifies buffer
    ensures buffer[..] == old(buffer[..at]) + data + old(buffer[at + |data|..])
  {
    for k := 0 to |data|
      invariant buffer[..at] == old(buffer[..at])
      invariant buffer[at..at + k] == data[..k]
      invariant buffer[at + k..] == old(buffer[at + k..])
    {
      buffer[at + k] := data[k];
    }
  }

  /** State and buffer of a context that has taken in `m`: whole blocks folded, the rest kept. */
  ghost predicate Holding(st: seq<word>, buf: seq<byte>, m: seq<byte>) {
    && |st| == 5 && |buf| == 64
    && AsRegisters(st) == Fold(m, |m| / 64)
    && buf[..|m| % 64] == m[|m| - |m| % 64..]
  }

  lemma FilledBuffer(buf: seq<byte>, m: seq<byte>, data: seq<byte>, j: nat, n: nat)
    requires |buf| == 64 && j == |m| % 64 && n == |m| / 64 && j + |data| >= 64
    requires buf[..j] == m[|m| - j..]
    ensures buf[..j] + data[..64 - j] == (m + data)[64 * n..64 * (n + 1)]
  {
  }

  lemma NextBlock(m: seq<byte>, data: seq<byte>, i: nat, n: nat)
    requires |m| + i == 64 * n && i + 64 <= |data|
    ensures data[i..i + 64] == (m + data)[64 * n..64 * (n + 1)]
  {
  }

  lemma RestKept(st: seq<word>, buf: seq<byte>, was: seq<byte>, m: seq<byte>, data: seq<byte>, i: nat, n: nat)
    requires |m| + i == 64 * n && i <= |data| < i + 64 && |st| == 5 && |was| == 64
    requires AsRegisters(st) == Fold(m + data, n)
    requires buf == was[..0] + data[i..] + was[0 + |data[i..]|..]
    ensures Holding(st, buf, m + data)
  {
    var all := m + data;
    assert |all| / 64 == n && |all| % 64 == |data| - i;
    assert all[64 * n..] == data[i..];
  }

  lemma ShortKept(st: seq<word>, buf: seq<byte>, was: seq<byte>, m: seq<byte>, data: seq<byte>, j: nat)
    requires Holding(st, was, m) && j == |m| % 64 && j + |data| < 64
    requires buf == was[..j] + data + was[j + |data|..]
    ensures Holding(st, buf, m + data)
  {
    hide Fold;
    var n := |m| / 64;
    var all := m + data;
    FoldPrefix(m, data, n);
    assert |all| / 64 == n && |all| % 64 == j + |data|;
    assert all[64 * n..] == m[64 * n..] + data;
  }

  lemma FoldStep(m: seq<byte>, n: nat)
    requires 64 * (n + 1) <= |m|
    ensures Fold(m, n + 1) == Compress(Fold(m, n), m[64 * n..64 * (n + 1)])
  {
  }

  /** The end of the block after the current one fits in the 32 bits of the loop index. */
  lemma NoWrap(length: nat, start: nat, size: nat, i: nat, n: nat)
    requires start == length % 64 && start + size < TWO32 && i <= size && length + i == 64 * n
    ensures i + 63 < TWO32
  {
    var q := n - length / 64;
    assert start + i == 64 * q;
  }

  /** The loop of Sha1Update over the whole blocks of the data. */
  method HashBlocks(state: array<word>, data: seq<byte>, from: nat, ghost m: seq<byte>, ghost done: nat)
    returns (i: nat, ghost n: nat)
    requires state.Length == 5 && |m| % 64 + |data| < TWO32
    requires from <= |data| && |m| + from == 64 * done && AsRegisters(state[..]) == Fold(m + data, done)
    modifies state
    ensures i <= |data| < i + 64 && |m| + i == 64 * n && AsRegisters(state[..]) == Fold(m + data, n)
  {
    hide Compress, AsRegisters, Fold, Wrap32;
    i, n := from, done;
    NoWrap(|m|, |m| % 64, |data|, i, n);
    while Wrap32(i + 63) < |data|
      invariant 0 <= i <= |data| && |m| + i == 64 * n && i + 63 < TWO32
      invariant AsRegisters(state[..]) == Fold(m + data, n)
      decreases |data| - i
    {
      NextBlock(m, data, i, n);
      FoldStep(m + data, n);
      TransformFunction(state, data[i..i + 64]);
      n := n + 1;
      i := i + 64;
      NoWrap(|m|, |m| % 64, |data|, i, n);
    }
  }

  /** The part of Sha1Update after the count: fill and hash the buffer, hash whole blocks in place, keep the rest. */
  method Absorb(state: array<word>, buffer: array<byte>, start: nat, data: seq<byte>, ghost m: seq<byte>)
    requires state.Length == 5 && buffer.Length == 64
    requires Holding(state[..], buffer[..], m) && start == |m| % 64 && start + |data| < TWO32
    modifies state, buffer
    ensures Holding(state[..], buffer[..], m + data)
  {
    hide Compress, AsRegisters, Fold, Wrap32;
    var i := 0;
    if Wrap32(start + |data|) > 63 {
      ghost var n := |m| / 64;
      FoldPrefix(m, data, n);
      FilledBuffer(buffer[..], m, data, start, n);
      i := 64 - start;
      CopyInto(buffer, start, data[..i]);
      assert buffer[..] == (m + data)[64 * n..64 * (n + 1)];
      FoldStep(m + data, n);
      TransformFunction(state, buffer[..]);
      n := n + 1;
      i, n := HashBlocks(state, data, i, m, n);
      ghost var was := buffer[..];
      CopyInto(buffer, 0, data[i..]);
      RestKept(state[..], buffer[..], was, m, data, i, n);
    } else {
      ghost var was := buffer[..];
      CopyInto(buffer, start, data);
      ShortKept(state[..], buffer[..], was, m, data, start);
    }
  }

  /** The big-endian word that begins at byte `i`. */
  function WordAt(d: seq<byte>, i: nat): word
    requires i + 4 <= |d|
  {
    BigEndian(d[i], d[i + 1], d[i + 2], d[i + 3])
  }

  /** The big-endian words of the digest are the registers in order. */
  lemma DigestWords(r: Registers)
    ensures var d := RegisterBytes(r);
            && WordAt(d, 0) == r.a && WordAt(d, 4) == r.b && WordAt(d, 8) == r.c && WordAt(d, 12) == r.d
            && WordAt(d, 16) == r.e
  {
    hide WordBytes, BigEndian;
    WordBytesBigEndian(r.a);
    WordBytesBigEndian(r.b);
    WordBytesBigEndian(r.c);
    WordBytesBigEndian(r.d);
    WordBytesBigEndian(r.e);
  }

  lemma DigestWord(s: seq<word>, i: nat)
    requires |s| == 5 && i < 5
    ensures WordAt(RegisterBytes(AsRegisters(s)), 4 * i) == s[i]
  {
    hide RegisterBytes, WordAt;
    DigestWords(AsRegisters(s));
  }

  /** The digest loop of Sha1Finalise. */
  method DigestBytes(state: array<word>) returns (digest: seq<byte>)
    requires state.Length == 5
    ensures digest == RegisterBytes(AsRegisters(state[..]))
  {
    hide WordBytes;
    digest := [];
    for i := 0 to 5
      invariant digest == RegisterBytes(AsRegisters(state[..]))[..4 * i]
    {
      digest := digest + WordBytes(state[i]);
    }
  }

  /** The digest, which reads as the registers. */
  method ReadDigest(state: array<word>) returns (digest: seq<byte>)
    requires state.Length == 5
    ensures digest == RegisterBytes(AsRegisters(state[..]))
    ensures |digest| == 20 && forall i :: 0 <= i < 5 ==> WordAt(digest, 4 * i) == state[i]
  {
    hide RegisterBytes, AsRegisters, WordAt;
    digest := DigestBytes(state);
    forall i | 0 <= i < 5 ensures WordAt(digest, 4 * i) == state[i] {
      DigestWord(state[..], i);
    }
  }

  lemma PadSettled(length: nat, z: nat)
    requires z <= PadZeros(length)
    ensures (length + 1 + z) % 64 == 56 <==> z == PadZeros(length)
  {
  }

  lemma DropMultiple(x: nat, q: nat)
    ensures (TWO64 * q + x) % TWO64 == x % TWO64
  {
  }

  lemma CountGrows(low: u32, high: u32, size: u32, length: nat)
    requires low + TWO32 * high == 8 * length % TWO64
    ensures CountLow(low, size) + TWO32 * CountHigh(low, high, size) == 8 * (length + size) % TWO64
  {
    hide CountLow, CountHigh;
    CountAdds(low, high, size);
    var q := 8 * length / TWO64;
    DropMultiple(low + TWO32 * high + 8 * size, q);
  }

  lemma ZerosGrow(z: nat)
    ensures Zeros(z) + [0] == Zeros(z + 1) && Zeros(0) == []
  {
  }

  class Sha1Context {
    const state: array<word>
    const buffer: array<byte>
    var count0: u32
    var count1: u32
    /** Everything added since initialisation. */
    ghost var message: seq<byte>

    ghost predicate Valid()
      reads this, state, buffer
    {
      && state.Length == 5 && buffer.Length == 64
      && count0 + TWO32 * count1 == 8 * |message| % TWO64
      && Holding(state[..], buffer[..], message)
    }

    /** Sha1Initialise. */
    constructor ()
      ensures Valid() && message == [] && fresh(state) && fresh(buffer)
    {
      state := new word[] [0x67452301, 0xefcdab89, 0x98badcfe, 0x10325476, 0xc3d2e1f0];
      buffer := new byte[64](_ => 0);
      count0, count1 := 0, 0;
      message := [];
    }

    /** Sha1Update; the byte count added to what is buffered must not wrap 32 bits. */
    method Update(data: seq<byte>)
      requires Valid()
      requires |message| % 64 + |data| < TWO32
      modifies this, state, buffer
      ensures Valid() && message == old(message) + data
    {
      hide Holding, CountLow, CountHigh;
      Buffered(count0, count1, |message|);
      var j := count0 / 8 % 64;
      CountGrows(count0, count1, |data|, |message|);
      count0, count1 := CountLow(count0, |data|), CountHigh(count0, count1, |data|);
      Absorb(state, buffer, j, data, message);
      message := message + data;
    }

    /** The 0x80 byte and the zero-padding loop of Sha1Finalise. */
    method PadBlock()
      requires Valid()
      modifies this, state, buffer
      ensures Valid()
      ensures message == old(message) + [0x80] + Zeros(PadZeros(|old(message)|))
    {
      hide Holding, PadZeros, Zeros;
      ghost var m := message;
      ZerosGrow(0);
      Update([0x80]);
      ghost var z := 0;
      Buffered(count0, count1, |message|);
      while count0 / 8 % 64 * 8 != 448
        invariant Valid()
        invariant 0 <= z <= PadZeros(|m|)
        invariant message == m + [0x80] + Zeros(z)
        invariant count0 / 8 % 64 == |message| % 64
        decreases PadZeros(|m|) - z
      {
        PadSettled(|m|, z);
        ZerosGrow(z);
        Update([0]);
        Buffered(count0, count1, |message|);
        z := z + 1;
      }
      PadSettled(|m|, z);
    }

    /** Sha1Finalise: pad with ordinary updates, then read the digest out of the state. */
    method Finalise() returns (digest: seq<byte>)
      requires Valid()
      modifies this, state, buffer
      ensures digest == Sha1(old(message))
    {
      hide Fold, WordBytes, BytesOf, CountBytes, AsRegisters;
      var finalcount := CountBytes(count0, count1);
      CountBytesAreLength(count0, count1);
      PadBlock();
      Update(finalcount);
      assert message == Pad(old(message));
      digest := ReadDigest(state);
    }
  }

  function Concat(chunks: seq<seq<byte>>): seq<byte> {
    if chunks == [] then [] else Concat(chunks[..|chunks| - 1]) + chunks[|chunks| - 1]
  }

  /** For every way of splitting a message into updates, the digest is that of the whole message. */
  method HashChunks(chunks: seq<seq<byte>>) returns (digest: seq<byte>)
    requires forall k :: 0 <= k < |chunks| ==> |Concat(chunks[..k])| % 64 + |chunks[k]| < TWO32
    ensures digest == Sha1(Concat(chunks))
  {
    hide Sha1;
    var context := new Sha1Context();
    for k := 0 to |chunks|
      invariant context.Valid() && context.message == Concat(chunks[..k])
      invariant fresh(context) && fresh(context.state) && fresh(context.buffer)
    {
      context.Update(chunks[k]);
      assert chunks[..k + 1][..k] == chunks[..k];
    }
    assert chunks[..|chunks|] == chunks;
    digest := context.Finalise();
  }
}
