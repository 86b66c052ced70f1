/** The network dashboard's prefix lengths. */
module Dashboard {
  const TOP: bv32 := 0x8000_0000
  const ALL: bv32 := 0xFFFF_FFFF

  /** The word as it is after `k` left shifts by one. */
  function Shifted(m: bv32, k: nat): bv32 {
    if k == 0 then m else Shifted(m, k - 1) << 1
  }

  predicate TopBit(m: bv32) {
    m & TOP != 0
  }

  /** Bit `k` of a word, counted from the top. */
  predicate BitAt(m: bv32, k: nat) {
    TopBit(Shifted(m, k))
  }

  /** The top `bits` bits of `m` are ones and the next one, if any, is zero. */
  predicate LeadingOnes(m: bv32, bits: nat) {
    bits <= 32 && (forall k | 0 <= k < bits :: BitAt(m, k)) && (bits < 32 ==> !BitAt(m, bits))
  }

  /** The netmask of a prefix length: `p` ones, then zeros. */
  function Mask(p: nat): bv32 {
    if p == 0 then 0 else Longer(Mask(p - 1))
  }

  function Longer(mask: bv32): bv32 {
    (mask >> 1) | TOP
  }

  /** What a word and a mask have become after `b` steps, in one shift each. */
  predicate AtOnce(m: bv32, b: bv6, shifted: bv32, mask: bv32) {
    b <= 32 && shifted == m << b && mask == ALL << (32 - b)
  }

  /** Shifts by one add up; a shift count fits in six bits. */
  lemma {:induction false} ShiftsAddUp(k: nat, m: bv32) returns (b: bv6)
    requires k <= 32
    ensures b as nat == k && AtOnce(m, b, Shifted(m, k), Mask(k))
  {
    hide AtOnce;
    if k == 0 {
      b := 0;
      AtFirst(m);
    } else {
      b := ShiftsAddUp(k - 1, m);
      OnceMore(m, b, Shifted(m, k - 1), Mask(k - 1));
      b := b + 1;
    }
  }

  lemma AtFirst(m: bv32)
    ensures AtOnce(m, 0, m, 0)
  {
  }

  lemma OnceMore(m: bv32, b: bv6, shifted: bv32, mask: bv32)
    requires b < 32 && AtOnce(m, b, shifted, mask)
    ensures AtOnce(m, b + 1, shifted << 1, Longer(mask))
    ensures (b + 1) as nat == b as nat + 1
  {
  }

  lemma Fits(b: bv6)
    ensures b < 32 <==> b as nat < 32
  {
  }

  lemma ShiftedOut(m: bv32)
    ensures Shifted(m, 32) == 0
  {
    var b := ShiftsAddUp(32, m);
  }

  /** Bit `k` from the top is bit 31 - k from the bottom. */
  lemma BitIs(m: bv32, k: nat) returns (b: bv6)
    requires k < 32
    ensures b as nat == k && b <= 31 && (BitAt(m, k) <==> (m >> (31 - b)) & 1 == 1)
  {
    hide AtOnce, TopBit, Shifted;
    b := ShiftsAddUp(k, m);
    Fits(b);
    BitShifted(m, b, Shifted(m, k), Mask(k));
  }

  lemma BitShifted(m: bv32, b: bv6, shifted: bv32, mask: bv32)
    requires b < 32 && AtOnce(m, b, shifted, mask)
    ensures TopBit(shifted) <==> (m >> (31 - b)) & 1 == 1
  {
  }

  lemma MaskBitShifted(m: bv32, b: bv6, shifted: bv32, mask: bv32)
    requires b < 32 && AtOnce(m, b, shifted, mask)
    ensures Covers(m, Longer(mask)) <==> Covers(m, mask) && TopBit(shifted)
  {
  }

  lemma MaskBit(m: bv32, b: bv6, shifted: bv32, mask: bv32)
    requires b as nat < 32 && AtOnce(m, b, shifted, mask)
    ensures Covers(m, Longer(mask)) <==> Covers(m, mask) && TopBit(shifted)
  {
    hide AtOnce, Covers, TopBit;
    Fits(b);
    MaskBitShifted(m, b, shifted, mask);
  }

  predicate Covers(m: bv32, mask: bv32) {
    m >= mask
  }

  lemma MaskZero(m: bv32)
    ensures Covers(m, Mask(0))
  {
  }

  lemma NextOne(m: bv32, k: nat)
    requires k < 32
    ensures Covers(m, Mask(k + 1)) <==> Covers(m, Mask(k)) && BitAt(m, k)
    ensures Covers(m, Mask(0))
  {
    hide AtOnce, Covers, TopBit, Shifted, Longer;
    MaskZero(m);
    var b := ShiftsAddUp(k, m);
    MaskBit(m, b, Shifted(m, k), Mask(k));
  }

  lemma {:induction false} OnesBelow(m: bv32, k: nat)
    requires k <= 32
    ensures (forall j | 0 <= j < k :: BitAt(m, j)) <==> Covers(m, Mask(k))
  {
    hide BitAt, Covers;
    NextOne(m, if k > 0 then k - 1 else 0);
    if k > 0 {
      OnesBelow(m, k - 1);
    }
  }

  /** Leading ones by value: the word lies between the masks of `bits` and of one more. */
  lemma LeadingOnesRange(m: bv32, bits: nat)
    ensures LeadingOnes(m, bits) <==> bits <= 32 && Mask(bits) <= m && (bits < 32 ==> m < Mask(bits + 1))
  {
    hide BitAt, Mask;
    if bits <= 32 {
      OnesBelow(m, bits);
      if bits < 32 {
        NextOne(m, bits);
      }
    }
  }

  lemma {:induction false} ZerosFrom(m: bv32, k: nat)
    requires k <= 32
    ensures (forall j | k <= j < 32 :: !BitAt(m, j)) <==> Shifted(m, k) == 0
    decreases 32 - k
  {
    hide BitAt, Shifted;
    if k < 32 {
      ZerosFrom(m, k + 1);
      ZeroAfter(m, k);
    } else {
      ShiftedOut(m);
    }
  }

  lemma ZeroAfter(m: bv32, k: nat)
    ensures Shifted(m, k) == 0 <==> Shifted(m, k + 1) == 0 && !BitAt(m, k)
  {
    ShiftBit(Shifted(m, k));
  }

  lemma ShiftBit(n: bv32)
    ensures n == 0 <==> n << 1 == 0 && n & TOP == 0
  {
  }

  lemma MaskAt(m: bv32, b: bv6, shifted: bv32, mask: bv32)
    requires AtOnce(m, b, shifted, mask)
    ensures m == mask <==> Covers(m, mask) && shifted == 0
  {
  }

  /** A word is the mask of `k` exactly when its top `k` bits are ones and the others zeros. */
  lemma MaskBits(m: bv32, k: nat)
    requires k <= 32
    ensures m == Mask(k) <==> forall j | 0 <= j < 32 :: BitAt(m, j) == (j < k)
  {
    hide BitAt, Mask, Covers, AtOnce, Shifted;
    OnesBelow(m, k);
    ZerosFrom(m, k);
    var b := ShiftsAddUp(k, m);
    MaskAt(m, b, Shifted(m, k), Mask(k));
  }

  /** `mask_to_prefix`: the number of leading ones of a word, in at most 32 shifts. */
  method MaskToPrefix(mask: bv32) returns (bits: nat)
    ensures LeadingOnes(mask, bits)
  {
    var m := mask;
    bits := 0;
    while m & TOP != 0
      invariant 0 <= bits <= 32 && m == Shifted(mask, bits)
      invariant forall k | 0 <= k < bits :: BitAt(mask, k)
      decreases 32 - bits
    {
      ShiftedOut(mask);
      m := m << 1;
      bits := bits + 1;
    }
  }

  /** A word has one number of leading ones, and for the mask of a prefix it is the prefix. */
  lemma PrefixOfMask(m: bv32, a: nat, p: nat)
    requires LeadingOnes(m, a)
    ensures LeadingOnes(m, p) ==> a == p
    ensures p <= 32 && m == Mask(p) ==> a == p
  {
    hide BitAt, Mask;
    if p <= 32 {
      MaskBits(m, p);
    }
  }

  /** Rebuilding the mask from the prefix gives it back exactly when its ones were contiguous: no one
      after a zero. */
  lemma MaskOfPrefix(m: bv32, a: nat)
    requires LeadingOnes(m, a)
    ensures Mask(a) == m <==> forall j, k | 0 <= j < k < 32 && BitAt(m, k) :: BitAt(m, j)
    ensures Mask(a) == m <==> exists p: nat :: p <= 32 && Mask(p) == m
  {
    hide BitAt, Mask;
    MaskBits(m, a);
    if p: nat :| p <= 32 && Mask(p) == m {
      PrefixOfMask(m, a, p);
    }
  }
}
