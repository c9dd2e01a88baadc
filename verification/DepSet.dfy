/** The declarations one body's typing read, and the 128-bit key folded from their signature
    hashes (crates/fors-check/src/deps.rs). */
module DepSet {
  import opened Naturals

  type DefId = nat

  const NO_DEF: DefId := 0xFFFF_FFFF

  /** 2 to the 128: the modulus of the key's arithmetic. */
  const MODULUS: nat := 0x1_0000_0000_0000_0000_0000_0000_0000_0000

  type Word128 = n: nat | n < MODULUS witness 0

  const SEED: Word128 := 0x9e37_79b9_7f4a_7c15_f39c_c060_5ced_c835

  const FACTOR: Word128 := 0x0000_0100_0000_01b3

  /** The inverse of FACTOR modulo 2 to the 128: FACTOR is odd. */
  const FACTOR_INVERSE: Word128 := 0x8e55_0d11_2e25_7acb_ce96_5057_aff6_957b

  // ---- One step of the key ----

  function Xor(a: nat, b: nat): nat
    decreases a + b
  {
    if a == 0 && b == 0 then 0 else 2 * Xor(a / 2, b / 2) + (a + b) % 2
  }

  lemma {:induction false} XorFits(a: nat, b: nat, n: nat)
    requires a < Pow2(n) && b < Pow2(n)
    ensures Xor(a, b) < Pow2(n)
  {
    if n > 0 {
      XorFits(a / 2, b / 2, n - 1);
    }
  }

  lemma XorParts(a: nat, b: nat)
    ensures Xor(a, b) == 2 * Xor(a / 2, b / 2) + (a + b) % 2
  {
  }

  lemma LowBit(a: nat, b: nat, y: nat)
    ensures var x := 2 * y + (a + b) % 2; x / 2 == y && 2 * (a / 2) + (x + b) % 2 == a
  {
  }

  lemma {:induction false} XorTwice(a: nat, b: nat)
    ensures Xor(Xor(a, b), b) == a
    decreases a + b
  {
    hide Xor;
    XorParts(a, b);
    XorParts(Xor(a, b), b);
    LowBit(a, b, Xor(a / 2, b / 2));
    if a > 0 || b > 0 {
      XorTwice(a / 2, b / 2);
    } else {
      XorParts(0, 0);
    }
  }

  lemma {:induction false} XorCommutes(a: nat, b: nat)
    ensures Xor(a, b) == Xor(b, a)
    decreases a + b
  {
    if a > 0 || b > 0 {
      XorCommutes(a / 2, b / 2);
    }
  }

  lemma {:induction false} Pow2Adds(m: nat, n: nat)
    ensures Pow2(m + n) == Pow2(m) * Pow2(n)
  {
    if m > 0 {
      Pow2Adds(m - 1, n);
      assert Pow2(m + n) == 2 * Pow2(m - 1 + n);
    }
  }

  lemma Pow2Of8()
    ensures Pow2(8) == 0x100
  {
  }

  lemma Pow2Of128()
    ensures Pow2(128) == MODULUS
  {
    hide Pow2;
    Pow2Of8();
    Pow2Adds(8, 8);
    Pow2Adds(16, 16);
    Pow2Adds(32, 32);
    Pow2Adds(64, 64);
  }

  function XorWord(a: Word128, b: Word128): Word128 {
    Pow2Of128();
    XorFits(a, b, 128);
    Xor(a, b)
  }

  function RotateLeft17(h: Word128): Word128 {
    (h % 0x8000_0000_0000_0000_0000_0000_0000) * 0x2_0000 + h / 0x8000_0000_0000_0000_0000_0000_0000
  }

  function RotateRight17(h: Word128): Word128 {
    (h % 0x2_0000) * 0x8000_0000_0000_0000_0000_0000_0000 + h / 0x2_0000
  }

  lemma SplitAt17(hi: nat, lo: nat)
    requires lo < 0x2_0000
    ensures (hi * 0x2_0000 + lo) / 0x2_0000 == hi && (hi * 0x2_0000 + lo) % 0x2_0000 == lo
  {
  }

  lemma SplitAt111(hi: nat, lo: nat)
    requires lo < 0x8000_0000_0000_0000_0000_0000_0000
    ensures (hi * 0x8000_0000_0000_0000_0000_0000_0000 + lo) / 0x8000_0000_0000_0000_0000_0000_0000 == hi
    ensures (hi * 0x8000_0000_0000_0000_0000_0000_0000 + lo) % 0x8000_0000_0000_0000_0000_0000_0000 == lo
  {
  }

  lemma RotateBack(h: Word128)
    ensures RotateRight17(RotateLeft17(h)) == h
  {
    var half := 0x8000_0000_0000_0000_0000_0000_0000;
    SplitAt17(h % half, h / half);
  }

  lemma RotateForth(h: Word128)
    ensures RotateLeft17(RotateRight17(h)) == h
  {
    SplitAt111(h % 0x2_0000, h / 0x2_0000);
  }

  function WrappingMul(h: Word128, k: Word128): Word128 {
    (h * k) % MODULUS
  }

  lemma ModIs(x: nat, q: int, r: nat)
    requires x == MODULUS * q + r && r < MODULUS
    ensures x % MODULUS == r
  {
  }

  /** Multiplying by an odd factor loses nothing. */
  lemma MulBack(h: Word128)
    ensures WrappingMul(WrappingMul(h, FACTOR), FACTOR_INVERSE) == h
    ensures WrappingMul(WrappingMul(h, FACTOR_INVERSE), FACTOR) == h
  {
    assert FACTOR * FACTOR_INVERSE == MODULUS * 0x8e_550d_1220 + 1;
    var q := h * FACTOR / MODULUS;
    var r := WrappingMul(h, FACTOR);
    assert r * FACTOR_INVERSE == MODULUS * (h * 0x8e_550d_1220 - q * FACTOR_INVERSE) + h;
    ModIs(r * FACTOR_INVERSE, h * 0x8e_550d_1220 - q * FACTOR_INVERSE, h);
    var q' := h * FACTOR_INVERSE / MODULUS;
    var r' := WrappingMul(h, FACTOR_INVERSE);
    assert r' * FACTOR == MODULUS * (h * 0x8e_550d_1220 - q' * FACTOR) + h;
    ModIs(r' * FACTOR, h * 0x8e_550d_1220 - q' * FACTOR, h);
  }

  function Step(h: Word128, sig: Word128): Word128 {
    WrappingMul(RotateLeft17(XorWord(h, sig)), FACTOR)
  }

  /** What the step made of `h ^ sig`, undone. */
  function Unmix(k: Word128): Word128 {
    RotateRight17(WrappingMul(k, FACTOR_INVERSE))
  }

  lemma StepBack(h: Word128, sig: Word128)
    ensures Unmix(Step(h, sig)) == XorWord(h, sig)
  {
    hide WrappingMul, RotateLeft17, RotateRight17;
    MulBack(RotateLeft17(XorWord(h, sig)));
    RotateBack(XorWord(h, sig));
  }

  /** A step is injective in the accumulator and in the hash. */
  lemma StepInjective(h: Word128, sig: Word128, h': Word128, sig': Word128)
    requires Step(h, sig) == Step(h', sig')
    ensures h == h' <==> sig == sig'
  {
    hide Step, Unmix;
    StepBack(h, sig);
    StepBack(h', sig');
    XorTwice(h, sig);
    XorTwice(h', sig');
    XorCommutes(h, sig);
    XorCommutes(h', sig');
    XorTwice(sig, h);
    XorTwice(sig', h');
  }

  /** From any accumulator every key is reached by exactly one hash. */
  lemma StepReaches(h: Word128, k: Word128) returns (sig: Word128)
    ensures Step(h, sig) == k
    ensures forall s: Word128 :: Step(h, s) == k ==> s == sig
  {
    sig := XorWord(Unmix(k), h);
    XorCommutes(h, sig);
    XorTwice(Unmix(k), h);
    RotateForth(WrappingMul(k, FACTOR_INVERSE));
    MulBack(k);
    assert Step(h, sig) == k by {
      hide WrappingMul, RotateLeft17, RotateRight17;
    }
    forall s: Word128 | Step(h, s) == k ensures s == sig {
      StepInjective(h, s, h, sig);
    }
  }

  // ---- The key of a list of declarations ----

  function Fold(defs: seq<DefId>, sigHash: DefId -> Word128, h: Word128): Word128 {
    if defs == [] then h else Fold(defs[1..], sigHash, Step(h, sigHash(defs[0])))
  }

  lemma {:induction false} FoldAppends(a: seq<DefId>, b: seq<DefId>, sigHash: DefId -> Word128, h: Word128)
    ensures Fold(a + b, sigHash, h) == Fold(b, sigHash, Fold(a, sigHash, h))
  {
    if a == [] {
      assert a + b == b;
    } else {
      assert (a + b)[1..] == a[1..] + b;
      FoldAppends(a[1..], b, sigHash, Step(h, sigHash(a[0])));
    }
  }

  lemma {:induction false} FoldInjective(defs: seq<DefId>, sigHash: DefId -> Word128, h: Word128, h': Word128)
    requires Fold(defs, sigHash, h) == Fold(defs, sigHash, h')
    ensures h == h'
  {
    if defs != [] {
      hide Step;
      FoldInjective(defs[1..], sigHash, Step(h, sigHash(defs[0])), Step(h', sigHash(defs[0])));
      StepInjective(h, sigHash(defs[0]), h', sigHash(defs[0]));
    }
  }

  lemma {:induction false} FoldReads(defs: seq<DefId>, f: DefId -> Word128, g: DefId -> Word128, h: Word128)
    requires forall d | d in defs :: f(d) == g(d)
    ensures Fold(defs, f, h) == Fold(defs, g, h)
  {
    if defs != [] {
      FoldReads(defs[1..], f, g, Step(h, f(defs[0])));
    }
  }

  lemma OneChangeAt(pre: seq<DefId>, d: DefId, post: seq<DefId>, f: DefId -> Word128, g: DefId -> Word128)
    requires forall e | e in pre || e in post :: f(e) == g(e)
    ensures Fold(pre + ([d] + post), f, SEED) == Fold(pre + ([d] + post), g, SEED) <==> f(d) == g(d)
  {
    hide Step, Fold;
    var h := Fold(pre, f, SEED);
    FoldReads(pre, f, g, SEED);
    FoldAppends(pre, [d] + post, f, SEED);
    FoldAppends(pre, [d] + post, g, SEED);
    FoldHead(d, post, f, h);
    FoldHead(d, post, g, h);
    FoldReads(post, f, g, Step(h, f(d)));
    if Fold(post, g, Step(h, f(d))) == Fold(post, g, Step(h, g(d))) {
      FoldInjective(post, g, Step(h, f(d)), Step(h, g(d)));
      StepInjective(h, f(d), h, g(d));
    }
  }

  lemma AscendingSplit(defs: seq<DefId>, i: nat)
    requires Ascending(defs) && i < |defs|
    ensures forall e | e in defs[..i] || e in defs[i + 1..] :: e in defs && e != defs[i]
  {
  }

  /** Changing the hash of exactly one recorded declaration always changes the key. */
  lemma OneChangeChangesKey(defs: seq<DefId>, f: DefId -> Word128, g: DefId -> Word128, d: DefId)
    requires Ascending(defs) && d in defs
    requires forall e | e in defs && e != d :: f(e) == g(e)
    ensures Fold(defs, f, SEED) == Fold(defs, g, SEED) <==> f(d) == g(d)
  {
    hide Step, Fold;
    var i :| 0 <= i < |defs| && defs[i] == d;
    AscendingSplit(defs, i);
    hide Ascending;
    assert defs == defs[..i] + ([d] + defs[i + 1..]);
    OneChangeAt(defs[..i], d, defs[i + 1..], f, g);
  }

  lemma FoldHead(d: DefId, post: seq<DefId>, f: DefId -> Word128, h: Word128)
    ensures Fold([d] + post, f, h) == Fold(post, f, Step(h, f(d)))
  {
    assert ([d] + post)[1..] == post;
  }

  // ---- Keys in numbers ----

  lemma {:induction false} XorZero(a: nat)
    ensures Xor(a, 0) == a
  {
    if a > 0 {
      XorZero(a / 2);
    }
  }

  lemma XorOne(a: nat)
    ensures Xor(a, 1) == if a % 2 == 0 then a + 1 else a - 1
  {
    XorParts(a, 1);
    XorZero(a / 2);
  }

  /** A step from the mixed word on, in numbers. */
  function Mixed(x: Word128): Word128 {
    WrappingMul(RotateLeft17(x), FACTOR)
  }

  lemma StepZero(h: Word128)
    ensures Step(h, 0) == Mixed(h)
  {
    XorZero(h);
  }

  lemma StepOne(h: Word128)
    requires h % 2 == 0
    ensures h + 1 < MODULUS && Step(h, 1) == Mixed(h + 1)
  {
    XorOne(h);
  }

  lemma StepOddOne(h: Word128)
    requires h % 2 == 1
    ensures Step(h, 1) == Mixed(h - 1)
  {
    XorOne(h);
  }

  /** Mixing in numbers: the word's high 17 bits and its rest, and the product's quotient. */
  lemma MixedIs(x: Word128, hi: nat, lo: nat, q: nat, k: Word128)
    requires x == hi * 0x8000_0000_0000_0000_0000_0000_0000 + lo && lo < 0x8000_0000_0000_0000_0000_0000_0000
    requires (lo * 0x2_0000 + hi) * FACTOR == MODULUS * q + k
    ensures Mixed(x) == k
  {
    SplitAt111(hi, lo);
    ModIs((lo * 0x2_0000 + hi) * FACTOR, q, k);
  }

  lemma Mixes()
    ensures Mixed(SEED) == 0xd84d_d0a2_7353_c246_32b8_3e16_6637_aeea
    ensures Mixed(SEED - 1) == 0xd84d_d0a2_7353_c246_30b8_3e16_62d1_aeea
    ensures Mixed(0xd84d_d0a2_7353_c246_32b8_3e16_6637_aeeb) == 0x9479_5f22_675c_cd80_d7cf_fc3c_7581_1761
    ensures Mixed(0xd84d_d0a2_7353_c246_30b8_3e16_62d1_aeea) == 0x9475_5f22_674f_3580_d5c4_6f98_721b_1761
  {
    hide Mixed;
    MixedIs(SEED, 0x1_3c6e, 0x79b9_7f4a_7c15_f39c_c060_5ced_c835, 0xf3_72fe_9695,
            0xd84d_d0a2_7353_c246_32b8_3e16_6637_aeea);
    MixedIs(SEED - 1, 0x1_3c6e, 0x79b9_7f4a_7c15_f39c_c060_5ced_c834, 0xf3_72fe_9695,
            0xd84d_d0a2_7353_c246_30b8_3e16_62d1_aeea);
    MixedIs(0xd84d_d0a2_7353_c246_32b8_3e16_6637_aeeb, 0x1_b09b, 0x50a2_7353_c246_32b8_3e16_6637_aeeb, 0xa1_44e6_a896,
            0x9479_5f22_675c_cd80_d7cf_fc3c_7581_1761);
    MixedIs(0xd84d_d0a2_7353_c246_30b8_3e16_62d1_aeea, 0x1_b09b, 0x50a2_7353_c246_30b8_3e16_62d1_aeea, 0xa1_44e6_a896,
            0x9475_5f22_674f_3580_d5c4_6f98_721b_1761);
  }

  /** Two declarations with the hashes 0 and 1, and with the hashes swapped, have these keys: which
      declaration has which hash matters, not only which hashes there are. */
  lemma SwappedHashesChangeKey(d: DefId, e: DefId, f: DefId -> Word128, g: DefId -> Word128)
    requires d < e && f(d) == 0 && f(e) == 1 && g(d) == 1 && g(e) == 0
    ensures Fold([d, e], f, SEED) == 0x9479_5f22_675c_cd80_d7cf_fc3c_7581_1761
    ensures Fold([d, e], g, SEED) == 0x9475_5f22_674f_3580_d5c4_6f98_721b_1761
  {
    hide Step, Mixed;
    Mixes();
    StepZero(SEED);
    StepOne(Mixed(SEED));
    StepOddOne(SEED);
    StepZero(Mixed(SEED - 1));
    FoldTwo(d, e, f);
    FoldTwo(d, e, g);
  }

  lemma FoldTwo(d: DefId, e: DefId, f: DefId -> Word128)
    ensures Fold([d, e], f, SEED) == Step(Step(SEED, f(d)), f(e))
  {
    hide Step;
    FoldHead(d, [e], f, SEED);
    FoldHead(e, [], f, Step(SEED, f(d)));
    assert [d] + [e] == [d, e] && [e] + [] == [e];
  }

  // ---- The set behind a sequence of reads ----

  predicate Ascending(defs: seq<DefId>) {
    forall i, j | 0 <= i < j < |defs| :: defs[i] < defs[j]
  }

  predicate Sorted(defs: seq<DefId>) {
    forall i, j | 0 <= i < j < |defs| :: defs[i] <= defs[j]
  }

  function Elements(defs: seq<DefId>): set<DefId> {
    set d | d in defs
  }

  /** Strictly ascending lists of the same declarations are the same list. */
  lemma {:induction false} AscendingIsUnique(a: seq<DefId>, b: seq<DefId>)
    requires Ascending(a) && Ascending(b) && Elements(a) == Elements(b)
    ensures a == b
  {
    assert forall d | d in a :: d in Elements(b);
    assert forall d | d in b :: d in Elements(a);
    assert a != [] ==> a[0] in Elements(b);
    assert b != [] ==> b[0] in Elements(a);
    if a != [] && b != [] {
      assert a[0] == b[0];
      assert Elements(a[1..]) == Elements(a) - {a[0]};
      assert Elements(b[1..]) == Elements(b) - {b[0]};
      AscendingIsUnique(a[1..], b[1..]);
      assert a == [a[0]] + a[1..] && b == [b[0]] + b[1..];
    }
  }

  function Insert(d: DefId, defs: seq<DefId>): seq<DefId> {
    if defs == [] || d <= defs[0] then [d] + defs else [defs[0]] + Insert(d, defs[1..])
  }

  /** The library's sort by identifier. */
  function Sort(defs: seq<DefId>): seq<DefId> {
    if defs == [] then [] else Insert(defs[0], Sort(defs[1..]))
  }

  lemma {:induction false} InsertElements(d: DefId, defs: seq<DefId>)
    ensures forall e :: e in Insert(d, defs) <==> e == d || e in defs
  {
    if defs != [] && d > defs[0] {
      InsertElements(d, defs[1..]);
      assert defs == [defs[0]] + defs[1..];
    }
  }

  lemma AscendingCons(d: DefId, defs: seq<DefId>)
    requires Ascending(defs) && forall e | e in defs :: d < e
    ensures Ascending([d] + defs)
  {
    assert forall k | 0 <= k < |defs| :: defs[k] in defs;
  }

  lemma SortedCons(d: DefId, defs: seq<DefId>)
    requires Sorted(defs) && forall e | e in defs :: d <= e
    ensures Sorted([d] + defs)
  {
    assert forall k | 0 <= k < |defs| :: defs[k] in defs;
  }

  lemma FirstIsLeast(defs: seq<DefId>)
    requires Sorted(defs) && defs != []
    ensures forall e | e in defs :: defs[0] <= e
    ensures Sorted(defs[1..])
    ensures Ascending(defs) ==> Ascending(defs[1..]) && forall e | e in defs[1..] :: defs[0] < e
  {
  }

  lemma {:induction false} InsertSorts(d: DefId, defs: seq<DefId>)
    requires Sorted(defs)
    ensures Sorted(Insert(d, defs))
    ensures Ascending(defs) && d !in defs ==> Ascending(Insert(d, defs))
  {
    if defs == [] {
    } else if d <= defs[0] {
      hide Sorted, Ascending;
      FirstIsLeast(defs);
      SortedCons(d, defs);
      if Ascending(defs) && d !in defs {
        AscendingCons(d, defs);
      }
    } else {
      hide Sorted, Ascending;
      FirstIsLeast(defs);
      InsertSorts(d, defs[1..]);
      InsertElements(d, defs[1..]);
      var r := Insert(d, defs[1..]);
      assert defs == [defs[0]] + defs[1..];
      SortedCons(defs[0], r);
      if Ascending(defs) && d !in defs {
        AscendingCons(defs[0], r);
      }
    }
  }

  lemma {:induction false} SortSorts(defs: seq<DefId>)
    ensures Sorted(Sort(defs)) && forall e :: e in Sort(defs) <==> e in defs
  {
    if defs != [] {
      SortSorts(defs[1..]);
      InsertSorts(defs[0], Sort(defs[1..]));
      InsertElements(defs[0], Sort(defs[1..]));
      assert defs == [defs[0]] + defs[1..];
    }
  }

  /** The library's removal of adjacent repeats. */
  function Dedup(defs: seq<DefId>): seq<DefId> {
    if |defs| < 2 then defs
    else if defs[0] == defs[1] then Dedup(defs[1..])
    else [defs[0]] + Dedup(defs[1..])
  }

  lemma {:induction false} DedupElements(defs: seq<DefId>)
    ensures forall e :: e in Dedup(defs) <==> e in defs
  {
    if |defs| >= 2 {
      DedupElements(defs[1..]);
      assert defs == [defs[0]] + defs[1..];
    }
  }

  lemma {:induction false} DedupAscends(defs: seq<DefId>)
    requires Sorted(defs)
    ensures Ascending(Dedup(defs))
  {
    if |defs| >= 2 {
      DedupAscends(defs[1..]);
      if defs[0] != defs[1] {
        DedupElements(defs[1..]);
        assert forall e | e in defs[1..] :: defs[0] < e;
        AscendingCons(defs[0], Dedup(defs[1..]));
      }
    }
  }

  class DepSet {
    var defs: seq<DefId>

    constructor ()
      ensures defs == []
    {
      defs := [];
    }

    /** A read of `def`: remembered unless it names nothing or repeats the last read. */
    method Record(def: DefId)
      modifies this
      ensures Elements(defs) == Elements(old(defs)) + if def == NO_DEF then {} else {def}
      ensures defs == if def == NO_DEF || (old(defs) != [] && old(defs)[|old(defs)| - 1] == def) then old(defs)
                      else old(defs) + [def]
    {
      if def == NO_DEF {
        return;
      }
      if defs != [] && defs[|defs| - 1] == def {
        assert def in defs;
        return;
      }
      defs := defs + [def];
    }

    /** The set of the reads, in identifier order. */
    method Finish()
      modifies this
      ensures Ascending(defs) && Elements(defs) == Elements(old(defs))
    {
      SortSorts(defs);
      DedupAscends(Sort(defs));
      DedupElements(Sort(defs));
      defs := Dedup(Sort(defs));
    }

    /** Moves the reads out, finished, and leaves this set empty. */
    method Take() returns (out: DepSet)
      modifies this
      ensures fresh(out) && defs == []
      ensures Ascending(out.defs) && Elements(out.defs) == Elements(old(defs))
    {
      out := new DepSet();
      out.defs := defs;
      defs := [];
      out.Finish();
    }

    method Key(sigHash: DefId -> Word128) returns (h: Word128)
      ensures h == Fold(defs, sigHash, SEED)
    {
      h := SEED;
      for i := 0 to |defs|
        invariant Fold(defs, sigHash, SEED) == Fold(defs[i..], sigHash, h)
      {
        var sig := sigHash(defs[i]);
        h := WrappingMul(RotateLeft17(XorWord(h, sig)), FACTOR);
        assert defs[i..][1..] == defs[i + 1..];
      }
    }
  }

  // ---- A whole body: the key depends on which declarations were read, and on nothing else ----

  /** The declarations of a set in identifier order. */
  ghost function InOrder(s: set<DefId>): (defs: seq<DefId>)
    ensures Ascending(defs) && Elements(defs) == s
  {
    if s == {} then [] else
      var d :| d in s;
      var rest := InOrder(s - {d});
      assert d !in Elements(rest);
      InsertSorts(d, rest);
      InsertElements(d, rest);
      assert forall e :: e in rest <==> e in Elements(rest);
      Insert(d, rest)
  }

  ghost function KeyOf(s: set<DefId>, sigHash: DefId -> Word128): Word128 {
    Fold(InOrder(s), sigHash, SEED)
  }

  /** The life of one set: any sequence of reads, then the key. */
  method KeyOfReads(history: seq<DefId>, sigHash: DefId -> Word128) returns (h: Word128)
    ensures h == KeyOf(Elements(history) - {NO_DEF}, sigHash)
  {
    hide Step, Fold;
    var recorded := new DepSet();
    for i := 0 to |history|
      invariant fresh(recorded)
      invariant Elements(recorded.defs) == Elements(history[..i]) - {NO_DEF}
    {
      recorded.Record(history[i]);
      assert history[..i + 1] == history[..i] + [history[i]];
    }
    assert history[..|history|] == history;
    recorded.Finish();
    AscendingIsUnique(recorded.defs, InOrder(Elements(history) - {NO_DEF}));
    h := recorded.Key(sigHash);
  }

  /** With one signature changed, the key changes if and only if that declaration was read. */
  lemma KeyTracksReads(s: set<DefId>, f: DefId -> Word128, g: DefId -> Word128, d: DefId)
    requires f(d) != g(d) && forall e | e in s && e != d :: f(e) == g(e)
    ensures KeyOf(s, f) != KeyOf(s, g) <==> d in s
  {
    hide Step, Fold;
    var defs := InOrder(s);
    assert forall e | e in defs :: e in Elements(defs);
    if d in s {
      assert d in Elements(defs);
      OneChangeChangesKey(defs, f, g, d);
    } else {
      FoldReads(defs, f, g, SEED);
    }
  }
}
