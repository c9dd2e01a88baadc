/** What the alias constructors mean (crates/fors-asm/src/inst.rs): under the manual's account of
    UBFM, SBFM, CSINC, CSINV and CSNEG (Arm Architecture Reference Manual DDI 0487, section C6.2),
    each alias computes the operation it is named after. */
module Aliases {
  import opened Naturals
  import opened Wrappers
  import opened Quotients
  import opened Fields
  import opened Operands
  import opened Instructions
  import Bitmask

  /** A register value, least significant bit first. */
  type Bits = seq<bool>

  // ---- The manual's bit vectors ----

  function Ones(count: nat, width: nat): (r: Bits)
    ensures |r| == width
  {
    seq(width, k requires 0 <= k < width => k < count)
  }

  function Rotate(x: Bits, r: nat): (y: Bits)
    ensures |y| == |x|
  {
    seq(|x|, k requires 0 <= k < |x| => x[(k + r) % |x|])
  }

  function Repeat(x: Bits, width: nat): (y: Bits)
    requires x != []
    ensures |y| == width
  {
    seq(width, k requires 0 <= k < width => x[k % |x|])
  }

  function AndBits(x: Bits, y: Bits): (r: Bits)
    requires |x| == |y|
    ensures |r| == |x|
  {
    seq(|x|, k requires 0 <= k < |x| => x[k] && y[k])
  }

  function OrBits(x: Bits, y: Bits): (r: Bits)
    requires |x| == |y|
    ensures |r| == |x|
  {
    seq(|x|, k requires 0 <= k < |x| => x[k] || y[k])
  }

  function NotBits(x: Bits): (r: Bits)
    ensures |r| == |x|
  {
    seq(|x|, k requires 0 <= k < |x| => !x[k])
  }

  /** Addition of one, carries rippling up; the last carry is dropped. */
  function Increment(x: Bits): (r: Bits)
    ensures |r| == |x|
  {
    if x == [] then [] else if x[0] then [false] + Increment(x[1..]) else [true] + x[1..]
  }

  function Negate(x: Bits): Bits {
    Increment(NotBits(x))
  }

  /** The number a bit vector spells. */
  function Numeral(bits: seq<bool>): nat {
    if bits == [] then 0 else (if bits[0] then 1 else 0) + 2 * Numeral(bits[1..])
  }

  lemma UnfoldNumeral(b: bool, rest: Bits)
    ensures Numeral([b] + rest) == (if b then 1 else 0) + 2 * Numeral(rest)
  {
    assert ([b] + rest)[1..] == rest;
  }

  /** One more, modulo two to the width. */
  lemma {:induction false} IncrementAddsOne(x: Bits)
    ensures Numeral(x) < Pow2(|x|)
    ensures Numeral(Increment(x)) ==
            if Numeral(x) + 1 == Pow2(|x|) then 0 else Numeral(x) + 1
  {
    hide Numeral;
    if x == [] {
      EmptyNumeral();
    } else {
      assert x == [x[0]] + x[1..];
      IncrementAddsOne(x[1..]);
      UnfoldNumeral(x[0], x[1..]);
      UnfoldNumeral(!x[0], x[1..]);
      UnfoldNumeral(false, Increment(x[1..]));
    }
  }

  lemma EmptyNumeral()
    ensures Numeral([]) == 0
  {
  }

  lemma {:induction false} NotComplements(x: Bits)
    ensures Numeral(NotBits(x)) == Pow2(|x|) - 1 - Numeral(x)
  {
    if x != [] {
      NotComplements(x[1..]);
      assert NotBits(x)[1..] == NotBits(x[1..]);
    }
  }

  /** Two's complement negation. */
  lemma NegateSubtracts(x: Bits)
    ensures Numeral(Negate(x)) ==
            if Numeral(x) == 0 then 0 else Pow2(|x|) - Numeral(x)
  {
    IncrementAddsOne(NotBits(x));
    NotComplements(x);
  }

  // ---- Registers ----

  datatype Flags = Flags(n: bool, z: bool, c: bool, v: bool)

  /** The general registers. Number 31 is not among them: these instructions read it as zero. */
  datatype Machine = Machine(x: seq<Bitmask.Word>, flags: Flags) {
    predicate Valid() { |x| == 31 }
  }

  function ReadReg(m: Machine, r: Reg): (v: Bits)
    requires m.Valid()
    ensures |v| == WidthOf(r.is64)
  {
    if r.num == 31 then Ones(0, WidthOf(r.is64)) else m.x[r.num][..WidthOf(r.is64)]
  }

  /** A 32-bit result clears the upper half; a result for number 31 is dropped. */
  function WriteReg(m: Machine, r: Reg, v: Bits): (m': Machine)
    requires m.Valid() && |v| == WidthOf(r.is64)
    ensures m'.Valid()
  {
    if r.num == 31 then m else m.(x := m.x[r.num := v + Ones(0, 64 - |v|)])
  }

  // ---- The manual's instructions ----

  /** The element size `DecodeBitMasks` takes from the highest set bit of `N:NOT(imms)`. */
  function ElementOf(n: U1, imms: U6): (size: nat)
    requires n == 1 || imms < 63
    ensures size > 0
  {
    Bitmask.SizeAt(Bitmask.HighestSetBit(64 * n + (63 - imms)))
  }

  /** `DecodeBitMasks` without the check on immediates: the rotated mask and the top mask. */
  function BitMasks(n: U1, immr: U6, imms: U6, width: nat): (r: (Bits, Bits))
    requires n == 1 || imms < 63
    ensures |r.0| == |r.1| == width
  {
    var size := ElementOf(n, imms);
    var s, r := imms % size, immr % size;
    var d := (s - r) % size;
    (Repeat(Rotate(Ones(s + 1, size), r), width), Repeat(Ones(d + 1, size), width))
  }

  function Ubfm(src: Bits, n: U1, immr: U6, imms: U6): (r: Bits)
    requires n == 1 || imms < 63
    ensures |r| == |src|
  {
    var (wmask, tmask) := BitMasks(n, immr, imms, |src|);
    AndBits(AndBits(Rotate(src, immr), wmask), tmask)
  }

  function Sbfm(src: Bits, n: U1, immr: U6, imms: U6): (r: Bits)
    requires (n == 1 || imms < 63) && imms < |src|
    ensures |r| == |src|
  {
    var (wmask, tmask) := BitMasks(n, immr, imms, |src|);
    var bot := AndBits(Rotate(src, immr), wmask);
    var top := seq(|src|, k requires 0 <= k < |src| => src[imms]);
    OrBits(AndBits(top, NotBits(tmask)), AndBits(bot, tmask))
  }

  /** `ConditionHolds`: the top three bits pick a test, the last inverts it, except for `NV`. */
  predicate Holds(c: Cond, f: Flags) {
    var base :=
      if c == 0 || c == 1 then f.z
      else if c == 2 || c == 3 then f.c
      else if c == 4 || c == 5 then f.n
      else if c == 6 || c == 7 then f.v
      else if c == 8 || c == 9 then f.c && !f.z
      else if c == 10 || c == 11 then f.n == f.v
      else if c == 12 || c == 13 then f.n == f.v && !f.z
      else true;
    if c & 1 == 1 && c != 15 then !base else base
  }

  /** The bit-field and conditional-select instructions. */
  function Execute(i: Inst, m: Machine): (m': Machine)
    requires m.Valid() && Constructed(i)
    requires (i.Bitfield? && !i.bop.Bfm?) || i.CondSelect?
    ensures m'.Valid()
  {
    match i
    case Bitfield(op, rd, rn, immr, imms, _) =>
      var n := if rd.is64 then 1 else 0;
      var src := ReadReg(m, rn);
      WriteReg(m, rd, if op.Ubfm? then Ubfm(src, n, immr, imms) else Sbfm(src, n, immr, imms))
    case CondSelect(op, rd, rn, rm, cond, _) =>
      var other := ReadReg(m, rm);
      var result :=
        if Holds(cond, m.flags) then ReadReg(m, rn)
        else match op
          case Csel => other
          case Csinc => Increment(other)
          case Csinv => NotBits(other)
          case Csneg => Negate(other);
      WriteReg(m, rd, result)
  }

  // ---- The named operations ----

  function ShiftLeft(x: Bits, shift: nat): Bits {
    seq(|x|, k requires 0 <= k < |x| => k >= shift && x[k - shift])
  }

  function ShiftRight(x: Bits, shift: nat): Bits {
    seq(|x|, k requires 0 <= k < |x| => k + shift < |x| && x[k + shift])
  }

  /** Zeros stand above the low `bits`. */
  function ZeroExtend(x: Bits, bits: nat): Bits {
    seq(|x|, k requires 0 <= k < |x| => k < bits && x[k])
  }

  /** Copies of the sign stand above the low `bits`. */
  function SignExtendBits(x: Bits, bits: nat): Bits
    requires 0 < bits <= |x|
  {
    seq(|x|, k requires 0 <= k < |x| => x[if k < bits then k else bits - 1])
  }

  function ShiftRightSigned(x: Bits, shift: nat): Bits
    requires shift < |x|
  {
    seq(|x|, k requires 0 <= k < |x| => x[if k + shift < |x| then k + shift else |x| - 1])
  }

  // ---- Bit fields of a whole register ----

  predicate Whole(n: U1, width: nat) {
    width == if n == 1 then 64 else 32
  }

  lemma WholeElement(n: U1, imms: U6, width: nat)
    requires Whole(n, width) && imms < width
    ensures ElementOf(n, imms) == width
  {
  }

  function Lapped(x: int, width: nat): int {
    if x < 0 then x + width else if x < width then x else x - width
  }

  /** Bit `k` of the rotated mask and of the top mask. */
  lemma MaskBits(n: U1, immr: U6, imms: U6, width: nat, k: nat)
    requires Whole(n, width) && imms < width && immr < width && k < width
    ensures BitMasks(n, immr, imms, width).0[k] <==> Lapped(k + immr, width) <= imms
    ensures BitMasks(n, immr, imms, width).1[k] <==> k <= Lapped(imms - immr, width)
  {
    WholeElement(n, imms, width);
    hide ElementOf;
    Residue(imms, width);
    Residue(immr, width);
    Residue(k, width);
    Residue(k + immr, width);
    Residue(imms - immr, width);
  }

  lemma RotateBit(x: Bits, r: nat, k: nat)
    requires k < |x| && r < |x|
    ensures 0 <= Lapped(k + r, |x|) < |x| && Rotate(x, r)[k] == x[Lapped(k + r, |x|)]
  {
    Residue(k + r, |x|);
  }

  /** A field taken from bit `r` up to bit `s`, moved to the bottom; the sign is bit `s`. */
  lemma ExtractBits(src: Bits, n: U1, immr: U6, imms: U6, k: nat)
    requires Whole(n, |src|) && immr <= imms < |src| && k < |src|
    ensures Ubfm(src, n, immr, imms)[k] == (k <= imms - immr && src[k + immr])
    ensures Sbfm(src, n, immr, imms)[k] == src[if k <= imms - immr then k + immr else imms]
  {
    MaskBits(n, immr, imms, |src|, k);
    RotateBit(src, immr, k);
    hide BitMasks, Rotate;
  }

  /** A field from the bottom up to bit `s`, moved up to bit `width - r`. */
  lemma InsertBits(src: Bits, n: U1, immr: U6, imms: U6, k: nat)
    requires Whole(n, |src|) && imms < immr < |src| && k < |src|
    ensures var up := |src| - immr;
            Ubfm(src, n, immr, imms)[k] == (k >= up && k - up <= imms && src[k - up])
  {
    MaskBits(n, immr, imms, |src|, k);
    RotateBit(src, immr, k);
    hide BitMasks, Rotate;
  }

  // ---- The bit-field aliases ----

  /** Register operands the bit-field forms take. */
  predicate TakesBitfield(rd: Reg, rn: Reg) {
    SameWidth(rd, rn) && !rd.IsSp() && !rn.IsSp()
  }

  /** What `r` builds writes `v` to `rd`. */
  predicate Computes(r: Built, m: Machine, rd: Reg, v: Bits)
    requires m.Valid() && |v| == WidthOf(rd.is64)
  {
    && r.Ok? && Constructed(r.value) && ((r.value.Bitfield? && !r.value.bop.Bfm?) || r.value.CondSelect?)
    && Execute(r.value, m) == WriteReg(m, rd, v)
  }

  /** The amount `Display` prints for `LSL`. */
  function PrintedLsl(i: Inst): int
    requires i.Bitfield?
  {
    WidthOf(i.rd.is64) - i.imms - 1
  }

  lemma ShiftLeftBits(src: Bits, n: U1, shift: nat)
    requires Whole(n, |src|) && shift < |src|
    ensures Ubfm(src, n, (|src| - shift) % |src|, |src| - 1 - shift) == ShiftLeft(src, shift)
  {
    Residue(|src| - shift, |src|);
    var immr: U6, imms: U6 := (|src| - shift) % |src|, |src| - 1 - shift;
    forall k: nat | k < |src| ensures Ubfm(src, n, immr, imms)[k] == ShiftLeft(src, shift)[k] {
      if shift == 0 {
        ExtractBits(src, n, immr, imms, k);
      } else {
        InsertBits(src, n, immr, imms, k);
      }
    }
    hide Ubfm;
  }

  lemma ShiftRightBits(src: Bits, n: U1, shift: nat)
    requires Whole(n, |src|) && shift < |src|
    ensures Ubfm(src, n, shift, |src| - 1) == ShiftRight(src, shift)
    ensures Sbfm(src, n, shift, |src| - 1) == ShiftRightSigned(src, shift)
  {
    forall k: nat | k < |src|
      ensures Ubfm(src, n, shift, |src| - 1)[k] == ShiftRight(src, shift)[k]
      ensures Sbfm(src, n, shift, |src| - 1)[k] == ShiftRightSigned(src, shift)[k]
    {
      ExtractBits(src, n, shift, |src| - 1, k);
    }
    hide Ubfm, Sbfm;
  }

  lemma ExtendBits(src: Bits, n: U1, bits: nat)
    requires Whole(n, |src|) && 0 < bits <= |src|
    ensures Ubfm(src, n, 0, bits - 1) == ZeroExtend(src, bits)
    ensures Sbfm(src, n, 0, bits - 1) == SignExtendBits(src, bits)
  {
    forall k: nat | k < |src|
      ensures Ubfm(src, n, 0, bits - 1)[k] == ZeroExtend(src, bits)[k]
      ensures Sbfm(src, n, 0, bits - 1)[k] == SignExtendBits(src, bits)[k]
    {
      ExtractBits(src, n, 0, bits - 1, k);
    }
    hide Ubfm, Sbfm;
  }

  lemma LslBuilds(rd: Reg, rn: Reg, shift: U8)
    ensures NewLsl(rd, rn, shift).Ok? <==> shift < WidthOf(rd.is64) && TakesBitfield(rd, rn)
    ensures NewLsl(rd, rn, shift).Ok? ==>
              var width := WidthOf(rd.is64);
              && 0 <= (width - shift) % width < width
              && NewLsl(rd, rn, shift).value == Bitfield(BitfieldOp.Ubfm, rd, rn, (width - shift) % width, width - 1 - shift, LslImm)
              && Constructed(NewLsl(rd, rn, shift).value)
  {
    var width := WidthOf(rd.is64);
    if shift < width {
      Residue(width - shift, width);
    }
  }

  /** `LSL` is accepted exactly for a shift below the width, shifts left by it, and prints it. */
  lemma LslMeans(rd: Reg, rn: Reg, shift: U8, m: Machine)
    requires m.Valid()
    ensures var r := NewLsl(rd, rn, shift);
            && (r.Ok? <==> shift < WidthOf(rd.is64) && TakesBitfield(rd, rn))
            && (r.Ok? ==> Computes(r, m, rd, ShiftLeft(ReadReg(m, rn), shift)) && PrintedLsl(r.value) == shift)
  {
    hide NewLsl, NewBitfield, Constructed, Ubfm, Sbfm, ShiftLeft, ReadReg, WriteReg;
    LslBuilds(rd, rn, shift);
    if NewLsl(rd, rn, shift).Ok? {
      ShiftLeftBits(ReadReg(m, rn), if rd.is64 then 1 else 0, shift);
    }
  }

  lemma LsrMeans(rd: Reg, rn: Reg, shift: U8, m: Machine)
    requires m.Valid()
    ensures var r := NewLsr(rd, rn, shift);
            && (r.Ok? <==> shift < WidthOf(rd.is64) && TakesBitfield(rd, rn))
            && (r.Ok? ==> Computes(r, m, rd, ShiftRight(ReadReg(m, rn), shift)))
  {
    hide Ubfm, Sbfm, ShiftRight, ShiftRightSigned, ReadReg, WriteReg;
    if shift < WidthOf(rd.is64) && TakesBitfield(rd, rn) {
      ShiftRightBits(ReadReg(m, rn), if rd.is64 then 1 else 0, shift);
    }
  }

  lemma AsrMeans(rd: Reg, rn: Reg, shift: U8, m: Machine)
    requires m.Valid()
    ensures var r := NewAsr(rd, rn, shift);
            && (r.Ok? <==> shift < WidthOf(rd.is64) && TakesBitfield(rd, rn))
            && (r.Ok? ==> Computes(r, m, rd, ShiftRightSigned(ReadReg(m, rn), shift)))
  {
    hide Ubfm, Sbfm, ShiftRight, ReadReg, WriteReg;
    if shift < WidthOf(rd.is64) && TakesBitfield(rd, rn) {
      ShiftRightBits(ReadReg(m, rn), if rd.is64 then 1 else 0, shift);
    }
  }

  /** `SXTB` and `SXTH` carry the sign of the low 8 or 16 bits through the register. */
  lemma SignExtendsMean(rd: Reg, rn: Reg, m: Machine)
    requires m.Valid()
    ensures NewSxtb(rd, rn).Ok? <==> TakesBitfield(rd, rn)
    ensures NewSxth(rd, rn).Ok? <==> TakesBitfield(rd, rn)
    ensures TakesBitfield(rd, rn) ==> Computes(NewSxtb(rd, rn), m, rd, SignExtendBits(ReadReg(m, rn), 8))
    ensures TakesBitfield(rd, rn) ==> Computes(NewSxth(rd, rn), m, rd, SignExtendBits(ReadReg(m, rn), 16))
  {
    hide Ubfm, Sbfm, SignExtendBits, ZeroExtend, ReadReg, WriteReg;
    if TakesBitfield(rd, rn) {
      ExtendBits(ReadReg(m, rn), if rd.is64 then 1 else 0, 8);
      ExtendBits(ReadReg(m, rn), if rd.is64 then 1 else 0, 16);
    }
  }

  /** `UXTB` and `UXTH` are 32-bit only and clear what stands above the low 8 or 16 bits. */
  lemma ZeroExtendsMean(rd: Reg, rn: Reg, m: Machine)
    requires m.Valid()
    ensures NewUxtb(rd, rn).Ok? <==> !rd.is64 && TakesBitfield(rd, rn)
    ensures NewUxth(rd, rn).Ok? <==> !rd.is64 && TakesBitfield(rd, rn)
    ensures NewUxtb(rd, rn).Ok? ==> Computes(NewUxtb(rd, rn), m, rd, ZeroExtend(ReadReg(m, rn), 8))
    ensures NewUxth(rd, rn).Ok? ==> Computes(NewUxth(rd, rn), m, rd, ZeroExtend(ReadReg(m, rn), 16))
  {
    hide Ubfm, Sbfm, SignExtendBits, ZeroExtend, ReadReg, WriteReg;
    if !rd.is64 && TakesBitfield(rd, rn) {
      ExtendBits(ReadReg(m, rn), 0, 8);
      ExtendBits(ReadReg(m, rn), 0, 16);
    }
  }

  /** A 32-bit value with its sign carried into 64 bits. */
  function Widened(x: Bits): Bits
    requires |x| == 32
  {
    seq(64, k requires 0 <= k < 64 => x[if k < 32 then k else 31])
  }

  /** `SXTW` takes a W register into an X register. */
  lemma SxtwMeans(rd: Reg, rn: Reg, m: Machine)
    requires m.Valid()
    ensures var r := NewSxtw(rd, rn);
            && (r.Ok? <==> rd.is64 && !rn.is64 && !rd.IsSp() && !rn.IsSp())
            && (r.Ok? ==> Computes(r, m, rd, Widened(ReadReg(m, rn))))
  {
    var x := rn.(is64 := true);
    if rd.is64 && !rn.is64 && TakesBitfield(rd, x) {
      ExtendBits(ReadReg(m, x), 1, 32);
      assert SignExtendBits(ReadReg(m, x), 32) == Widened(ReadReg(m, rn));
    }
    hide Ubfm, Sbfm, SignExtendBits, ZeroExtend, ReadReg, WriteReg, Widened;
  }

  // ---- The conditional aliases ----

  /** Inverting the code inverts the condition exactly for the conditions that can fail. */
  lemma InversionExact(c: Cond)
    ensures Conditional(c) <==> forall f: Flags :: Holds(Inverted(c), f) == !Holds(c, f)
  {
    var f := Flags(true, true, true, true);
    assert c == 14 || c == 15 ==> Holds(Inverted(c), f) && Holds(c, f);
  }

  function One(width: nat): Bits {
    seq(width, k requires 0 <= k < width => k == 0)
  }

  predicate TakesSelect(rd: Reg, rn: Reg, cond: Cond) {
    TakesBitfield(rd, rn) && Conditional(cond)
  }

  lemma ZeroChanged(width: nat)
    requires width > 0
    ensures Increment(Ones(0, width)) == One(width) && NotBits(Ones(0, width)) == Ones(width, width)
  {
    var zero := Ones(0, width);
    assert zero[1..] == Ones(0, width - 1) && [true] + zero[1..] == One(width);
  }

  /** `CSET` is 1 when the condition holds and 0 otherwise. */
  lemma CsetMeans(rd: Reg, cond: Cond, m: Machine)
    requires m.Valid()
    ensures NewCset(rd, cond).Ok? <==> !rd.IsSp() && Conditional(cond)
    ensures var w := WidthOf(rd.is64);
            NewCset(rd, cond).Ok? ==> Computes(NewCset(rd, cond), m, rd, if Holds(cond, m.flags) then One(w) else Ones(0, w))
  {
    InversionExact(cond);
    ZeroChanged(WidthOf(rd.is64));
    hide Holds, Inverted, Conditional, Increment, NotBits, Ones, One, WriteReg;
  }

  /** `CSETM` is all ones when the condition holds and 0 otherwise. */
  lemma CsetmMeans(rd: Reg, cond: Cond, m: Machine)
    requires m.Valid()
    ensures NewCsetm(rd, cond).Ok? <==> !rd.IsSp() && Conditional(cond)
    ensures var w := WidthOf(rd.is64);
            NewCsetm(rd, cond).Ok? ==> Computes(NewCsetm(rd, cond), m, rd, if Holds(cond, m.flags) then Ones(w, w) else Ones(0, w))
  {
    InversionExact(cond);
    ZeroChanged(WidthOf(rd.is64));
    hide Holds, Inverted, Conditional, Increment, NotBits, Ones, One, WriteReg;
  }

  /** `CINC`, `CINV` and `CNEG` increment, complement or negate when the condition holds, and copy
      otherwise. */
  lemma ConditionalsMean(rd: Reg, rn: Reg, cond: Cond, m: Machine)
    requires m.Valid()
    ensures NewCinc(rd, rn, cond).Ok? <==> TakesSelect(rd, rn, cond)
    ensures NewCinv(rd, rn, cond).Ok? <==> TakesSelect(rd, rn, cond)
    ensures NewCneg(rd, rn, cond).Ok? <==> TakesSelect(rd, rn, cond)
    ensures TakesSelect(rd, rn, cond) ==>
              var v := ReadReg(m, rn);
              && Computes(NewCinc(rd, rn, cond), m, rd, if Holds(cond, m.flags) then Increment(v) else v)
              && Computes(NewCinv(rd, rn, cond), m, rd, if Holds(cond, m.flags) then NotBits(v) else v)
              && Computes(NewCneg(rd, rn, cond), m, rd, if Holds(cond, m.flags) then Negate(v) else v)
  {
    InversionExact(cond);
    hide Holds, Inverted, Conditional, Increment, NotBits, ReadReg, WriteReg;
  }
}
