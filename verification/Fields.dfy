/** Numbers as bit fields of a 32-bit word, and back. */
module Fields {
  import opened Naturals

  type U1 = n: nat | n < 2
  type U3 = n: nat | n < 8
  type U5 = n: nat | n < 32
  type U6 = n: nat | n < 64
  type U8 = n: nat | n < 256
  type U12 = n: nat | n < 4096
  type U16 = n: nat | n < 0x1_0000

  /** The low `k` bits of a number. */
  function ToBits(n: nat, k: nat): bv32 {
    if k == 0 then 0 else if n % 2 == 1 then (ToBits(n / 2, k - 1) << 1) | 1 else ToBits(n / 2, k - 1) << 1
  }

  /** The number in the low `k` bits. */
  function FromBits(b: bv32, k: nat): nat {
    if k == 0 then 0 else (if b & 1 == 1 then 1 else 0) + 2 * FromBits(b >> 1, k - 1)
  }

  // Facts about whole words are kept behind these names: only one is opened at a time.

  predicate Fits(b: bv32, mask: bv32) {
    b & !mask == 0
  }

  /** `mask` is `half` with one more low bit. */
  predicate Doubles(mask: bv32, half: bv32) {
    mask >> 1 == half && mask & 1 == 1
  }

  predicate AppendsOne(y: bv32, x: bv32) {
    y == (x << 1) | 1
  }

  predicate AppendsZero(y: bv32, x: bv32) {
    y == x << 1
  }

  predicate Splits(y: bv32, x: bv32, bit: bv32) {
    y >> 1 == x && y & 1 == bit
  }

  lemma OddAppends(n: nat, k: nat)
    requires n % 2 == 1
    ensures AppendsOne(ToBits(n, k + 1), ToBits(n / 2, k))
  {
  }

  lemma EvenAppends(n: nat, k: nat)
    requires n % 2 == 0
    ensures AppendsZero(ToBits(n, k + 1), ToBits(n / 2, k))
  {
  }

  lemma OddFits(y: bv32, x: bv32, mask: bv32, half: bv32)
    requires AppendsOne(y, x) && Fits(x, half) && Doubles(mask, half)
    ensures Fits(y, mask)
  {
  }

  lemma EvenFits(y: bv32, x: bv32, mask: bv32, half: bv32)
    requires AppendsZero(y, x) && Fits(x, half) && Doubles(mask, half)
    ensures Fits(y, mask)
  {
  }

  lemma OddSplits(y: bv32, x: bv32, mask: bv32, half: bv32)
    requires AppendsOne(y, x) && Fits(x, half) && Doubles(mask, half)
    ensures Splits(y, x, 1)
  {
  }

  lemma EvenSplits(y: bv32, x: bv32, mask: bv32, half: bv32)
    requires AppendsZero(y, x) && Fits(x, half) && Doubles(mask, half)
    ensures Splits(y, x, 0)
  {
  }

  lemma OddReads(y: bv32, x: bv32, k: nat)
    requires Splits(y, x, 1)
    ensures FromBits(y, k + 1) == 1 + 2 * FromBits(x, k)
  {
  }

  lemma EvenReads(y: bv32, x: bv32, k: nat)
    requires Splits(y, x, 0)
    ensures FromBits(y, k + 1) == 2 * FromBits(x, k)
  {
  }

  /** The masks of 0 to `k` low bits, by doubling. */
  ghost predicate Masks(masks: seq<bv32>) {
    && masks != [] && masks[0] == 0
    && forall k | 0 < k < |masks| :: Doubles(masks[k], masks[k - 1])
  }

  lemma OddStep(n: nat, mask: bv32, half: bv32, k: nat)
    requires n % 2 == 1 && Doubles(mask, half)
    requires Fits(ToBits(n / 2, k), half) && FromBits(ToBits(n / 2, k), k) == n / 2
    ensures Fits(ToBits(n, k + 1), mask) && FromBits(ToBits(n, k + 1), k + 1) == n
  {
    hide *;
    var y, x := ToBits(n, k + 1), ToBits(n / 2, k);
    OddAppends(n, k);
    OddFits(y, x, mask, half);
    OddSplits(y, x, mask, half);
    OddReads(y, x, k);
  }

  lemma EvenStep(n: nat, mask: bv32, half: bv32, k: nat)
    requires n % 2 == 0 && Doubles(mask, half)
    requires Fits(ToBits(n / 2, k), half) && FromBits(ToBits(n / 2, k), k) == n / 2
    ensures Fits(ToBits(n, k + 1), mask) && FromBits(ToBits(n, k + 1), k + 1) == n
  {
    hide *;
    var y, x := ToBits(n, k + 1), ToBits(n / 2, k);
    EvenAppends(n, k);
    EvenFits(y, x, mask, half);
    EvenSplits(y, x, mask, half);
    EvenReads(y, x, k);
  }

  /** A number below `2^k` stays within the field of `k` bits and reads back. */
  lemma {:induction false} FieldBack(n: nat, masks: seq<bv32>, k: nat)
    requires n < Pow2(k) && k < |masks| && Masks(masks)
    ensures Fits(ToBits(n, k), masks[k])
    ensures FromBits(ToBits(n, k), k) == n
  {
    hide ToBits, FromBits, Fits, Doubles;
    if k == 0 {
      NothingFits(masks[0]);
    } else {
      FieldBack(n / 2, masks, k - 1);
      if n % 2 == 1 {
        OddStep(n, masks[k], masks[k - 1], k - 1);
      } else {
        EvenStep(n, masks[k], masks[k - 1], k - 1);
      }
    }
  }

  lemma NothingFits(mask: bv32)
    ensures Fits(ToBits(0, 0), mask) && FromBits(ToBits(0, 0), 0) == 0
  {
  }

  lemma {:induction false} FromBitsBelow(b: bv32, k: nat)
    ensures FromBits(b, k) < Pow2(k)
  {
    if k > 0 {
      FromBitsBelow(b >> 1, k - 1);
    }
  }

  function Number1(b: bv32): U1 {
    FromBitsBelow(b, 1);
    FromBits(b, 1)
  }

  function Number2(b: bv32): (n: nat)
    ensures n < 4
  {
    FromBitsBelow(b, 2);
    FromBits(b, 2)
  }

  function Number3(b: bv32): U3 {
    FromBitsBelow(b, 3);
    Powers();
    FromBits(b, 3)
  }

  function Number5(b: bv32): U5 {
    FromBitsBelow(b, 5);
    Powers();
    FromBits(b, 5)
  }

  function Number6(b: bv32): U6 {
    FromBitsBelow(b, 6);
    Powers();
    FromBits(b, 6)
  }

  function Number8(b: bv32): U8 {
    FromBitsBelow(b, 8);
    Powers();
    FromBits(b, 8)
  }

  function Number12(b: bv32): U12 {
    FromBitsBelow(b, 12);
    Powers();
    FromBits(b, 12)
  }

  function Number16(b: bv32): U16 {
    FromBitsBelow(b, 16);
    Powers();
    FromBits(b, 16)
  }

  lemma Powers()
    ensures Pow2(1) == 2 && Pow2(2) == 4 && Pow2(3) == 8 && Pow2(5) == 32 && Pow2(6) == 64
    ensures Pow2(7) == 128 && Pow2(8) == 256 && Pow2(12) == 0x1000 && Pow2(16) == 0x1_0000
  {
    assert Pow2(4) == 16;
    assert Pow2(8) == 16 * 16;
    assert Pow2(12) == 16 * Pow2(8);
    assert Pow2(16) == 16 * Pow2(12);
  }

  const MASKS: seq<bv32> := [0, 1, 3, 7, 0xF, 0x1F, 0x3F, 0x7F, 0xFF, 0x1FF, 0x3FF, 0x7FF, 0xFFF, 0x1FFF, 0x3FFF, 0x7FFF, 0xFFFF]

  lemma MasksDouble()
    ensures Masks(MASKS)
  {
    hide Doubles;
    Doubling(0x1, 0x0);
    Doubling(0x3, 0x1);
    Doubling(0x7, 0x3);
    Doubling(0xf, 0x7);
    Doubling(0x1f, 0xf);
    Doubling(0x3f, 0x1f);
    Doubling(0x7f, 0x3f);
    Doubling(0xff, 0x7f);
    Doubling(0x1ff, 0xff);
    Doubling(0x3ff, 0x1ff);
    Doubling(0x7ff, 0x3ff);
    Doubling(0xfff, 0x7ff);
    Doubling(0x1fff, 0xfff);
    Doubling(0x3fff, 0x1fff);
    Doubling(0x7fff, 0x3fff);
    Doubling(0xffff, 0x7fff);
  }

  lemma Doubling(mask: bv32, half: bv32)
    requires mask == (half << 1) | 1 && half <= 0xFFFF
    ensures Doubles(mask, half)
  {
  }

  lemma Back1(n: nat)
    requires n < 2
    ensures Fits(ToBits(n, 1), 1) && FromBits(ToBits(n, 1), 1) == n
  {
    hide ToBits, FromBits, Fits;
    MasksDouble();
    Powers();
    FieldBack(n, MASKS, 1);
  }

  lemma Back2(n: nat)
    requires n < 4
    ensures Fits(ToBits(n, 2), 0x3) && FromBits(ToBits(n, 2), 2) == n
  {
    hide ToBits, FromBits, Fits;
    MasksDouble();
    Powers();
    FieldBack(n, MASKS, 2);
  }

  lemma Back3(n: nat)
    requires n < 8
    ensures Fits(ToBits(n, 3), 0x7) && FromBits(ToBits(n, 3), 3) == n
  {
    hide ToBits, FromBits, Fits;
    MasksDouble();
    Powers();
    FieldBack(n, MASKS, 3);
  }

  lemma Back5(n: nat)
    requires n < 32
    ensures Fits(ToBits(n, 5), 0x1f) && FromBits(ToBits(n, 5), 5) == n
  {
    hide ToBits, FromBits, Fits;
    MasksDouble();
    Powers();
    FieldBack(n, MASKS, 5);
  }

  lemma Back6(n: nat)
    requires n < 64
    ensures Fits(ToBits(n, 6), 0x3f) && FromBits(ToBits(n, 6), 6) == n
  {
    hide ToBits, FromBits, Fits;
    MasksDouble();
    Powers();
    FieldBack(n, MASKS, 6);
  }

  lemma Back7(n: nat)
    requires n < 128
    ensures Fits(ToBits(n, 7), 0x7f) && FromBits(ToBits(n, 7), 7) == n
  {
    hide ToBits, FromBits, Fits;
    MasksDouble();
    Powers();
    FieldBack(n, MASKS, 7);
  }

  lemma Back8(n: nat)
    requires n < 256
    ensures Fits(ToBits(n, 8), 0xff) && FromBits(ToBits(n, 8), 8) == n
  {
    hide ToBits, FromBits, Fits;
    MasksDouble();
    Powers();
    FieldBack(n, MASKS, 8);
  }

  lemma Back12(n: nat)
    requires n < 4096
    ensures Fits(ToBits(n, 12), 0xfff) && FromBits(ToBits(n, 12), 12) == n
  {
    hide ToBits, FromBits, Fits;
    MasksDouble();
    Powers();
    FieldBack(n, MASKS, 12);
  }

  lemma Back16(n: nat)
    requires n < 65536
    ensures Fits(ToBits(n, 16), 0xffff) && FromBits(ToBits(n, 16), 16) == n
  {
    hide ToBits, FromBits, Fits;
    MasksDouble();
    Powers();
    FieldBack(n, MASKS, 16);
  }

  // ---- The field as a number ----

  predicate Spells(b: bv32, n: nat) {
    b as nat == n
  }

  lemma SpellsOdd(y: bv32, x: bv32, n: nat)
    requires AppendsOne(y, x) && Spells(x, n) && n < 0x8000
    ensures Spells(y, 2 * n + 1)
  {
  }

  lemma SpellsEven(y: bv32, x: bv32, n: nat)
    requires AppendsZero(y, x) && Spells(x, n) && n < 0x8000
    ensures Spells(y, 2 * n)
  {
  }

  lemma SpellsZero()
    ensures Spells(ToBits(0, 0), 0)
  {
  }

  /** The field of a number below `2^k` is that number. */
  lemma {:induction false} FieldSpells(n: nat, k: nat)
    requires n < Pow2(k) && n < 0x1_0000
    ensures Spells(ToBits(n, k), n)
  {
    hide Spells, ToBits, AppendsOne, AppendsZero;
    if k == 0 {
      SpellsZero();
    } else {
      FieldSpells(n / 2, k - 1);
      if n % 2 == 1 {
        OddAppends(n, k - 1);
        SpellsOdd(ToBits(n, k), ToBits(n / 2, k - 1), n / 2);
      } else {
        EvenAppends(n, k - 1);
        SpellsEven(ToBits(n, k), ToBits(n / 2, k - 1), n / 2);
      }
    }
  }
}
