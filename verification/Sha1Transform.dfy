/** TransformFunction of sha1.c: the block function with its in-place schedule and rotating registers. */
module Sha1Transform {
  import opened Sha1Spec

  /** A 32-bit load from the 64-byte workspace on a little-endian machine. */
  function LittleEndian(b0: byte, b1: byte, b2: byte, b3: byte): word {
    ((b3 as word) << 24) | ((b2 as word) << 16) | ((b1 as word) << 8) | (b0 as word)
  }

  function Load(m: Block, i: nat): word
    requires i < 16
  {
    LittleEndian(m[4 * i], m[4 * i + 1], m[4 * i + 2], m[4 * i + 3])
  }

  /** The rol macro. */
  function Rol(value: word, bits: bv5): word {
    (value << bits) | (value >> (32 - bits as bv6))
  }

  lemma RolIsRotl(x: word, n: bv5)
    ensures Rol(x, n) == Rotl(x, n)
  {
  }

  /** blk0 swaps the bytes of the loaded word. */
  function SwapBytes(l: word): word {
    (Rol(l, 24) & 0xff00ff00) | (Rol(l, 8) & 0x00ff00ff)
  }

  lemma SwapIsBigEndian(b0: byte, b1: byte, b2: byte, b3: byte)
    ensures SwapBytes(LittleEndian(b0, b1, b2, b3)) == BigEndian(b0, b1, b2, b3)
  {
  }

  /** The choice function as R0 and R1 write it. */
  function Choose(w: word, x: word, y: word): word {
    (w & (x ^ y)) ^ y
  }

  /** The majority function as R3 writes it. */
  function Majority(w: word, x: word, y: word): word {
    ((w | x) & y) | (w & x)
  }

  /** The bit function of the macro used in round `t`. */
  function Mix(t: nat, w: word, x: word, y: word): word {
    if t < 20 then Choose(w, x, y)
    else if t < 40 then w ^ x ^ y
    else if t < 60 then Majority(w, x, y)
    else w ^ x ^ y
  }

  lemma ChIdentity(w: word, x: word, y: word)
    ensures (w & (x ^ y)) ^ y == (w & x) ^ (!w & y)
  {
  }

  lemma MajIdentity(w: word, x: word, y: word)
    ensures ((w | x) & y) | (w & x) == (w & x) ^ (w & y) ^ (x & y)
  {
  }

  lemma ChRewritten(w: word, x: word, y: word)
    ensures Choose(w, x, y) == Ch(w, x, y)
  {
    ChIdentity(w, x, y);
  }

  lemma MajRewritten(w: word, x: word, y: word)
    ensures Majority(w, x, y) == Maj(w, x, y)
  {
    MajIdentity(w, x, y);
  }

  lemma MixIsF(t: nat, w: word, x: word, y: word)
    ensures Mix(t, w, x, y) == F(t, w, x, y)
  {
    hide Ch, Maj, Choose, Majority;
    ChRewritten(w, x, y);
    MajRewritten(w, x, y);
  }

  /** What a macro adds up, in its own order. */
  function MacroSum(z: word, f: word, w: word, k: word, rotated: word): word {
    z + (f + w + k + rotated)
  }

  lemma SumOrder(z: word, f: word, w: word, k: word, rotated: word)
    ensures MacroSum(z, f, w, k, rotated) == Temp(rotated, f, z, k, w)
  {
  }

  /** Before round `t` the 16 words hold the last 16 of the schedule; those not yet reached are as loaded. */
  ghost predicate Rolling(l: seq<word>, m: Block, t: nat) {
    && |l| == 16
    && (forall s: nat :: s < t <= s + 16 ==> l[s % 16] == W(m, s))
    && (forall i :: t <= i < 16 ==> l[i] == Load(m, i))
  }

  /** blk0 and blk: the new word of round `t`, stored over the one 16 rounds older. */
  function NextWord(l: seq<word>, t: nat): word
    requires |l| == 16
  {
    if t < 16 then SwapBytes(l[t])
    else Rol(l[(t + 13) % 16] ^ l[(t + 8) % 16] ^ l[(t + 2) % 16] ^ l[t % 16], 1)
  }

  lemma NextWordIsW(l: seq<word>, m: Block, t: nat)
    requires Rolling(l, m, t)
    ensures NextWord(l, t) == W(m, t)
  {
    hide Rotl, Rol, SwapBytes, LittleEndian, BigEndian;
    if t < 16 {
      SwapIsBigEndian(m[4 * t], m[4 * t + 1], m[4 * t + 2], m[4 * t + 3]);
    } else {
      assert (t + 13) % 16 == (t - 3) % 16 && (t + 8) % 16 == (t - 8) % 16;
      assert (t + 2) % 16 == (t - 14) % 16 && t % 16 == (t - 16) % 16;
      assert l[(t - 3) % 16] == W(m, t - 3) && l[(t - 8) % 16] == W(m, t - 8);
      assert l[(t - 14) % 16] == W(m, t - 14) && l[(t - 16) % 16] == W(m, t - 16);
      RolIsRotl(W(m, t - 3) ^ W(m, t - 8) ^ W(m, t - 14) ^ W(m, t - 16), 1);
    }
  }

  /** The last sixteen words have a slot each. */
  lemma RingSlots(s: nat, t: nat)
    requires s < t < s + 16
    ensures s % 16 != t % 16
  {
  }

  /** What a ring says of word `s`. */
  lemma RollingParts(l: seq<word>, m: Block, t: nat, s: nat)
    requires Rolling(l, m, t)
    ensures |l| == 16
    ensures s < t <= s + 16 ==> l[s % 16] == W(m, s)
    ensures t <= s < 16 ==> l[s] == Load(m, s)
  {
    hide W, Load;
  }

  lemma RollingWhole(l: seq<word>, m: Block, t: nat)
    requires |l| == 16 && forall s: nat :: s < t <= s + 16 ==> l[s % 16] == W(m, s)
    requires forall i :: t <= i < 16 ==> l[i] == Load(m, i)
    ensures Rolling(l, m, t)
  {
    hide W, Load;
  }

  lemma RollingStep(l: seq<word>, m: Block, t: nat, w: word)
    requires Rolling(l, m, t) && w == W(m, t)
    ensures Rolling(l[t % 16 := w], m, t + 1)
  {
    hide W, Load, Rolling;
    RollingParts(l, m, t, t);
    var l' := l[t % 16 := w];
    forall s: nat | s < t + 1 <= s + 16 ensures l'[s % 16] == W(m, s) {
      if s < t {
        RingSlots(s, t);
        RollingParts(l, m, t, s);
      }
    }
    forall i | t + 1 <= i < 16 ensures l'[i] == Load(m, i) {
      RollingParts(l, m, t, i);
    }
    RollingWhole(l', m, t + 1);
  }

  /** The new value of the last register, summed in the order of the round macros. */
  function NewZ(v: word, w: word, x: word, y: word, z: word, t: nat, wt: word): word {
    MacroSum(z, Mix(t, w, x, y), wt, K(t), Rol(v, 5))
  }

  lemma MacroIsRound(v: word, w: word, x: word, y: word, z: word, t: nat, wt: word)
    ensures Registers(NewZ(v, w, x, y, z, t, wt), v, Rol(w, 30), x, y) == Round(Registers(v, w, x, y, z), t, wt)
  {
    hide Mix, F, K, Rotl, Rol, MacroSum, Temp;
    RolIsRotl(v, 5);
    RolIsRotl(w, 30);
    MixIsF(t, w, x, y);
    SumOrder(z, F(t, w, x, y), wt, K(t), Rotl(v, 5));
  }

  /** R0 to R4: registers named v, w, x, y, z; only w and z change. */
  method R(v: word, w: word, x: word, y: word, z: word, t: nat, block: array<word>, ghost h: Registers, ghost m: Block)
    returns (w': word, z': word)
    requires block.Length == 16 && Rolling(block[..], m, t)
    requires Registers(v, w, x, y, z) == Rounds(h, m, t)
    modifies block
    ensures Rolling(block[..], m, t + 1)
    ensures Registers(z', v, w', x, y) == Rounds(h, m, t + 1)
  {
    hide W, Rol, NewZ, NextWord, Round;
    NextWordIsW(block[..], m, t);
    RollingStep(block[..], m, t, W(m, t));
    var wt := NextWord(block[..], t);
    block[t % 16] := wt;
    MacroIsRound(v, w, x, y, z, t, wt);
    z' := NewZ(v, w, x, y, z, t, wt);
    w' := Rol(w, 30);
  }

  /** The bytes of a buffer, copied where the rounds can overwrite them. */
  method Workspace(buffer: Block) returns (block: array<word>)
    ensures fresh(block) && block.Length == 16 && Rolling(block[..], buffer, 0)
  {
    hide W, LittleEndian;
    block := new word[16](i requires 0 <= i < 16 => Load(buffer, i));
  }

  lemma NoRounds(h: Registers, m: Block)
    ensures Rounds(h, m, 0) == h
  {
  }

  /** The += of the source. */
  function Sum(x: word, y: word): word {
    x + y
  }

  lemma SumIsPlus(x: word, y: word)
    ensures Sum(x, y) == Plus(x, y)
  {
  }

  /** The working registers added back into the state. */
  method AddInto(state: array<word>, a: word, b: word, c: word, d: word, e: word)
    requires state.Length == 5
    modifies state
    ensures AsRegisters(state[..]) == AddBack(old(AsRegisters(state[..])), Registers(a, b, c, d, e))
  {
    hide Sum, Plus;
    SumIsPlus(state[0], a);
    SumIsPlus(state[1], b);
    SumIsPlus(state[2], c);
    SumIsPlus(state[3], d);
    SumIsPlus(state[4], e);
    state[0] := Sum(state[0], a);
    state[1] := Sum(state[1], b);
    state[2] := Sum(state[2], c);
    state[3] := Sum(state[3], d);
    state[4] := Sum(state[4], e);
  }

  /** The 80 round macros, five at a time: each names the registers one place further round. */
  method TransformFunction(state: array<word>, buffer: Block)
    requires state.Length == 5
    modifies state
    ensures AsRegisters(state[..]) == Compress(old(AsRegisters(state[..])), buffer)
  {
    hide W, Round, Rounds, AddBack, LittleEndian, Load, Rolling;
    var block := Workspace(buffer);
    ghost var h := AsRegisters(state[..]);
    var a, b, c, d, e := state[0], state[1], state[2], state[3], state[4];
    var t := 0;
    NoRounds(h, buffer);
    while t < 80
      invariant 0 <= t <= 80 && t % 5 == 0
      invariant Rolling(block[..], buffer, t)
      invariant Registers(a, b, c, d, e) == Rounds(h, buffer, t)
      invariant AsRegisters(state[..]) == h
    {
      b, e := R(a, b, c, d, e, t, block, h, buffer);
      a, d := R(e, a, b, c, d, t + 1, block, h, buffer);
      e, c := R(d, e, a, b, c, t + 2, block, h, buffer);
      d, b := R(c, d, e, a, b, t + 3, block, h, buffer);
      c, a := R(b, c, d, e, a, t + 4, block, h, buffer);
      t := t + 5;
    }
    AddInto(state, a, b, c, d, e);
  }
}
