/** Access vectors: sets of permissions, one to a bit of a 32-bit word. */
module BitMasks {

  /** Permission `k` is in the vector. */
  predicate BitSet(x: bv32, k: nat)
    requires k < 32
  {
    (x >> k) & 1 == 1
  }

  /** Every permission of `r` is in `a`. */
  ghost predicate Contained(r: bv32, a: bv32) {
    forall k :: 0 <= k < 32 && BitSet(r, k) ==> BitSet(a, k)
  }

  /** The permissions of `r` that are not in `a`. */
  function Beyond(r: bv32, a: bv32): bv32 {
    r & !a
  }

  function Complement(a: bv32): bv32 {
    !a
  }

  lemma NothingBeyond(r: bv32, a: bv32, k: nat)
    requires k < 32 && Beyond(r, a) == 0 && BitSet(r, k)
    ensures BitSet(a, k)
  {
  }

  lemma NoBits(x: bv32)
    requires forall k :: 0 <= k < 32 ==> !BitSet(x, k)
    ensures x == 0
  {
    assert !BitSet(x, 0) && !BitSet(x, 1) && !BitSet(x, 2) && !BitSet(x, 3) && !BitSet(x, 4) && !BitSet(x, 5);
    assert !BitSet(x, 6) && !BitSet(x, 7) && !BitSet(x, 8) && !BitSet(x, 9) && !BitSet(x, 10) && !BitSet(x, 11);
    assert !BitSet(x, 12) && !BitSet(x, 13) && !BitSet(x, 14) && !BitSet(x, 15) && !BitSet(x, 16) && !BitSet(x, 17);
    assert !BitSet(x, 18) && !BitSet(x, 19) && !BitSet(x, 20) && !BitSet(x, 21) && !BitSet(x, 22) && !BitSet(x, 23);
    assert !BitSet(x, 24) && !BitSet(x, 25) && !BitSet(x, 26) && !BitSet(x, 27) && !BitSet(x, 28) && !BitSet(x, 29);
    assert !BitSet(x, 30) && !BitSet(x, 31);
  }

  lemma NotBoth(a: bv32, k: nat)
    requires k < 32
    ensures !(BitSet(a, k) && BitSet(Complement(a), k))
  {
    assert (a >> k) & (!a >> k) == (a & !a) >> k;
  }

  lemma BeyondWithin(r: bv32, a: bv32)
    ensures Beyond(Beyond(r, a), r) == 0 && Beyond(Beyond(r, a), Complement(a)) == 0
  {
  }

  lemma BeyondBit(r: bv32, a: bv32, k: nat)
    requires k < 32 && BitSet(Beyond(r, a), k)
    ensures BitSet(r, k) && !BitSet(a, k)
  {
    hide BitSet, Beyond, Complement;
    BeyondWithin(r, a);
    NothingBeyond(Beyond(r, a), r, k);
    NothingBeyond(Beyond(r, a), Complement(a), k);
    NotBoth(a, k);
  }

  /** Nothing lies beyond `a` exactly when every permission is in it. */
  lemma BeyondIsContained(r: bv32, a: bv32)
    ensures Beyond(r, a) == 0 <==> Contained(r, a)
  {
    hide BitSet, Beyond;
    if Beyond(r, a) == 0 {
      forall k | 0 <= k < 32 && BitSet(r, k) ensures BitSet(a, k) {
        NothingBeyond(r, a, k);
      }
    }
    if Contained(r, a) {
      var x := Beyond(r, a);
      forall k | 0 <= k < 32 ensures !BitSet(x, k) {
        if BitSet(x, k) {
          BeyondBit(r, a, k);
        }
      }
      NoBits(x);
    }
  }

  /** The test `a & r == r`. */
  predicate Includes(a: bv32, r: bv32) {
    a & r == r
  }

  lemma IncludesBit(a: bv32, r: bv32, k: nat)
    requires k < 32 && Includes(a, r) && BitSet(r, k)
    ensures BitSet(a, k)
  {
  }

  lemma IncludesAll(a: bv32, r: bv32)
    requires Beyond(r, a) == 0
    ensures Includes(a, r)
  {
  }

  lemma IncludesContained(a: bv32, r: bv32)
    ensures Includes(a, r) <==> Contained(r, a)
  {
    hide Includes, BitSet, Beyond;
    if Includes(a, r) {
      forall k | 0 <= k < 32 && BitSet(r, k) ensures BitSet(a, k) {
        IncludesBit(a, r, k);
      }
    }
    if Contained(r, a) {
      BeyondIsContained(r, a);
      IncludesAll(a, r);
    }
  }
}
