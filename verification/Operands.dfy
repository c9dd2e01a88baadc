/** Operands of AArch64 instructions (crates/fors-asm/src/operand.rs, crates/fors-asm/src/reg.rs):
    registers, shifts, and immediates checked when they are made. A 64-bit signed argument is its
    two's complement word. */
module Operands {
  import opened Wrappers
  import opened Fields
  import opened Quotients
  import Bitmask

  datatype EncodeError =
    | ImmediateOutOfRange
    | UnencodableLogicalImmediate
    | MisalignedOffset
    | InvalidShiftForForm
    | RegisterWidthMismatch
    | InvalidRegisterForForm

  // ---- Registers ----

  /** `sp` tells the two readings of number 31 apart: the stack pointer or the zero register. */
  datatype Reg = Reg(num: U5, is64: bool, sp: bool) {
    predicate IsSp() { num == 31 && sp }

    predicate IsZr() { num == 31 && !sp }
  }

  function Zr(is64: bool): Reg {
    Reg(31, is64, false)
  }

  datatype FpReg = FpReg(num: U5, double: bool)

  // ---- Conditions, shifts, extends ----

  type Cond = bv4

  const AL: Cond := 14
  const NV: Cond := 15

  function Inverted(c: Cond): Cond {
    c ^ 1
  }

  datatype ShiftKind = Lsl | Lsr | Asr | Ror

  /** A shift amount below the width it was made for. */
  datatype RegShift = RegShift(kind: ShiftKind, amount: U6)

  function NewRegShift(kind: ShiftKind, amount: U8, is64: bool): Result<RegShift, EncodeError> {
    if amount > if is64 then 63 else 31 then Err(ImmediateOutOfRange) else Ok(RegShift(kind, amount))
  }

  datatype ExtendKind = Uxtb | Uxth | Uxtw | Uxtx | Sxtb | Sxth | Sxtw | Sxtx

  datatype RegExtend = RegExtend(kind: ExtendKind, amount: U3)

  function NewRegExtend(kind: ExtendKind, amount: U8): Result<RegExtend, EncodeError> {
    if amount > 4 then Err(ImmediateOutOfRange) else Ok(RegExtend(kind, amount))
  }

  // ---- The ADD/SUB immediate ----

  datatype Uimm12Lsl = Uimm12Lsl(raw: bv12, shift12: bool) {
    function Value(): bv64 {
      if shift12 then (raw as bv64) << 12 else raw as bv64
    }
  }

  function NewUimm12Lsl(value: bv64): Result<Uimm12Lsl, EncodeError> {
    if value <= 0xFFF then Ok(Uimm12Lsl((value & 0xFFF) as bv12, false))
    else if value & 0xFFF == 0 && (value >> 12) <= 0xFFF then Ok(Uimm12Lsl(((value >> 12) & 0xFFF) as bv12, true))
    else Err(ImmediateOutOfRange)
  }

  /** Accepts exactly the values some 12 bits spell, shifted or not, and reads back as the value;
      a value small enough is spelled unshifted. */
  lemma Uimm12Exact(value: bv64, u: Uimm12Lsl)
    ensures NewUimm12Lsl(value).Ok? ==> NewUimm12Lsl(value).value.Value() == value
    ensures u.Value() == value ==> NewUimm12Lsl(value).Ok?
    ensures u.Value() == value && (u.shift12 ==> u.raw != 0) ==> NewUimm12Lsl(value) == Ok(u)
  {
  }

  // ---- Logical immediates ----

  datatype LogicalImm = LogicalImm(n: U1, immr: U6, imms: U6, is64: bool)

  function WidthOf(is64: bool): nat {
    if is64 then 64 else 32
  }

  /** The value the three fields stand for. */
  function LogicalValue(imm: LogicalImm): Option<Bitmask.Word> {
    Bitmask.Decode(imm.n, imm.immr, imm.imms, WidthOf(imm.is64))
  }

  // ---- Signed offsets ----

  /** Signed comparison of two's complement words. */
  predicate Below(a: bv64, b: bv64) {
    (a ^ 0x8000_0000_0000_0000) < (b ^ 0x8000_0000_0000_0000)
  }

  /** The low 32 bits, as a cast keeps them. */
  function Low32(b: bv64): bv32 {
    (b & 0xFFFF_FFFF) as bv32
  }

  /** A 32-bit signed word as a 64-bit one. */
  function Widen(x: bv32): bv64 {
    ((x as bv64) ^ 0x8000_0000) - 0x8000_0000
  }

  /** The field of `mask` width read back as a signed number; `sign` is its top bit. */
  function SignExtend(x: bv32, sign: bv32, mask: bv32): bv32 {
    ((x & mask) ^ sign) - sign
  }

  /** Word offsets in 26 bits (`B`, `BL`), 19 (`B.cond`, `CBZ`, `CBNZ`) or 14 (`TBZ`, `TBNZ`). */
  datatype BranchWidth = Imm26 | Imm19 | Imm14

  function Mask(width: BranchWidth): bv32 {
    match width
    case Imm26 => 0x3FF_FFFF
    case Imm19 => 0x7_FFFF
    case Imm14 => 0x3FFF
  }

  function SignBit(width: BranchWidth): bv32 {
    match width
    case Imm26 => 0x200_0000
    case Imm19 => 0x4_0000
    case Imm14 => 0x2000
  }

  datatype BranchOffset = BranchOffset(width: BranchWidth, wordOff: bv32) {
    /** The offset fits its width. */
    predicate InRange() {
      SignExtend(wordOff, SignBit(width), Mask(width)) == wordOff
    }

    function Encoding(): bv32 {
      wordOff & Mask(width)
    }

    function Bytes(): bv64 {
      Times4(Widen(wordOff))
    }
  }

  function Times4(word: bv64): bv64 {
    word << 2
  }

  predicate Aligned(bytes: bv64) {
    bytes & 3 == 0
  }

  /** Divided by four, the sign kept. */
  function Quarter(bytes: bv64): bv64 {
    ((bytes ^ 0x8000_0000_0000_0000) >> 2) - 0x2000_0000_0000_0000
  }

  /** `word` lies in the signed range whose largest member is `max`. */
  predicate Within(word: bv64, max: bv64) {
    !Below(word, !max) && !Below(max, word)
  }

  function Largest(width: BranchWidth): bv64 {
    match width
    case Imm26 => 0x1FF_FFFF
    case Imm19 => 0x3_FFFF
    case Imm14 => 0x1FFF
  }

  function NewBranchOffset(bytes: bv64, width: BranchWidth): Result<BranchOffset, EncodeError> {
    if !Aligned(bytes) then Err(MisalignedOffset)
    else if !Within(Quarter(bytes), Largest(width)) then Err(ImmediateOutOfRange)
    else Ok(BranchOffset(width, Low32(Quarter(bytes))))
  }

  lemma QuarterBack(bytes: bv64)
    requires Aligned(bytes)
    ensures Times4(Quarter(bytes)) == bytes
  {
  }

  lemma WidenQuarters(x: bv32)
    ensures Aligned(Times4(Widen(x))) && Quarter(Times4(Widen(x))) == Widen(x)
  {
    hide *;
    if x < 0x8000_0000 {
      WidenQuartersPositive(x);
    } else {
      WidenQuartersNegative(x);
    }
  }

  lemma WidenQuartersPositive(x: bv32)
    requires x < 0x8000_0000
    ensures Aligned(Times4(Widen(x))) && Quarter(Times4(Widen(x))) == Widen(x)
  {
  }

  lemma WidenQuartersNegative(x: bv32)
    requires x >= 0x8000_0000
    ensures Aligned(Times4(Widen(x))) && Quarter(Times4(Widen(x))) == Widen(x)
  {
  }

  // A number within a width's range keeps its value in 32 bits, and is what its field reads back as.

  lemma Fits26(word: bv64)
    requires Within(word, 0x1FF_FFFF)
    ensures Widen(Low32(word)) == word && SignExtend(Low32(word), 0x200_0000, 0x3FF_FFFF) == Low32(word)
  {
  }

  lemma Field26(x: bv32)
    requires SignExtend(x, 0x200_0000, 0x3FF_FFFF) == x
    ensures Within(Widen(x), 0x1FF_FFFF)
  {
  }

  lemma Fits21(word: bv64)
    requires Within(word, 0xF_FFFF)
    ensures Widen(Low32(word)) == word && SignExtend(Low32(word), 0x10_0000, 0x1F_FFFF) == Low32(word)
  {
  }

  lemma Field21(x: bv32)
    requires SignExtend(x, 0x10_0000, 0x1F_FFFF) == x
    ensures Within(Widen(x), 0xF_FFFF)
  {
  }

  lemma Fits19(word: bv64)
    requires Within(word, 0x3_FFFF)
    ensures Widen(Low32(word)) == word && SignExtend(Low32(word), 0x4_0000, 0x7_FFFF) == Low32(word)
  {
  }

  lemma Field19(x: bv32)
    requires SignExtend(x, 0x4_0000, 0x7_FFFF) == x
    ensures Within(Widen(x), 0x3_FFFF)
  {
  }

  lemma Fits14(word: bv64)
    requires Within(word, 0x1FFF)
    ensures Widen(Low32(word)) == word && SignExtend(Low32(word), 0x2000, 0x3FFF) == Low32(word)
  {
  }

  lemma Field14(x: bv32)
    requires SignExtend(x, 0x2000, 0x3FFF) == x
    ensures Within(Widen(x), 0x1FFF)
  {
  }

  lemma Fits9(word: bv64)
    requires Within(word, 0xFF)
    ensures Widen(Low32(word)) == word && SignExtend(Low32(word), 0x100, 0x1FF) == Low32(word)
  {
  }

  lemma Field9(x: bv32)
    requires SignExtend(x, 0x100, 0x1FF) == x
    ensures Within(Widen(x), 0xFF)
  {
  }

  lemma LowOfWiden(x: bv32)
    ensures Low32(Widen(x)) == x
  {
  }

  lemma LowBack(word: bv64, width: BranchWidth)
    requires Within(word, Largest(width))
    ensures Widen(Low32(word)) == word && BranchOffset(width, Low32(word)).InRange()
  {
    hide Within, Low32, Widen, SignExtend;
    match width {
      case Imm26 => Fits26(word);
      case Imm19 => Fits19(word);
      case Imm14 => Fits14(word);
    }
  }

  lemma LowForth(o: BranchOffset)
    requires o.InRange()
    ensures Within(Widen(o.wordOff), Largest(o.width)) && Low32(Widen(o.wordOff)) == o.wordOff
  {
    hide Within, Low32, Widen, SignExtend;
    LowOfWiden(o.wordOff);
    match o.width {
      case Imm26 => Field26(o.wordOff);
      case Imm19 => Field19(o.wordOff);
      case Imm14 => Field14(o.wordOff);
    }
  }

  /** `new` and `bytes` are each other's inverse: exactly the offsets of the width are accepted. */
  lemma BranchOffsetExact(bytes: bv64, width: BranchWidth, o: BranchOffset)
    ensures var r := NewBranchOffset(bytes, width);
            r.Ok? ==> r.value.InRange() && r.value.width == width && r.value.Bytes() == bytes
    ensures o.InRange() ==> NewBranchOffset(o.Bytes(), o.width) == Ok(o)
  {
    if NewBranchOffset(bytes, width).Ok? {
      BranchOffsetBack(bytes, width);
    }
    if o.InRange() {
      BranchOffsetForth(o);
    }
  }

  lemma BranchOffsetBack(bytes: bv64, width: BranchWidth)
    requires NewBranchOffset(bytes, width).Ok?
    ensures var o := NewBranchOffset(bytes, width).value; o.InRange() && o.width == width && o.Bytes() == bytes
  {
    hide Within, Low32, Widen, Quarter, Largest, SignExtend, Times4, Aligned;
    LowBack(Quarter(bytes), width);
    QuarterBack(bytes);
  }

  lemma BranchOffsetForth(o: BranchOffset)
    requires o.InRange()
    ensures NewBranchOffset(o.Bytes(), o.width) == Ok(o)
  {
    hide Within, Low32, Widen, Quarter, Largest, SignExtend, Times4, Aligned;
    LowForth(o);
    WidenQuarters(o.wordOff);
  }

  /** A 21-bit signed count: bytes for `ADR`, pages for `ADRP`. */
  datatype AdrOffset = AdrOffset(count: bv32) {
    predicate InRange() {
      SignExtend(count, 0x10_0000, 0x1F_FFFF) == count
    }

    /** The low two bits and the rest of the field. */
    function Encoding(): (bv32, bv32) {
      var imm21 := count & 0x1F_FFFF;
      (imm21 & 3, imm21 >> 2)
    }
  }

  function NewAdrOffset(count: bv64): Result<AdrOffset, EncodeError> {
    if !Within(count, 0xF_FFFF) then Err(ImmediateOutOfRange) else Ok(AdrOffset(Low32(count)))
  }

  lemma AdrOffsetExact(count: bv64, o: AdrOffset)
    ensures var r := NewAdrOffset(count); r.Ok? ==> r.value.InRange() && Widen(r.value.count) == count
    ensures o.InRange() ==> NewAdrOffset(Widen(o.count)) == Ok(o)
  {
    hide Within, Low32, Widen, SignExtend;
    if Within(count, 0xF_FFFF) {
      Fits21(count);
    }
    if o.InRange() {
      Field21(o.count);
      LowOfWiden(o.count);
    }
  }

  /** The unscaled or indexed offset: nine bits, in bytes. */
  datatype Simm9 = Simm9(bytes: bv32) {
    predicate InRange() {
      SignExtend(bytes, 0x100, 0x1FF) == bytes
    }

    function Encoding(): bv32 {
      bytes & 0x1FF
    }
  }

  function NewSimm9(bytes: bv64): Result<Simm9, EncodeError> {
    if !Within(bytes, 0xFF) then Err(ImmediateOutOfRange) else Ok(Simm9(Low32(bytes)))
  }

  lemma Simm9Exact(bytes: bv64, o: Simm9)
    ensures var r := NewSimm9(bytes); r.Ok? ==> r.value.InRange() && Widen(r.value.bytes) == bytes
    ensures o.InRange() ==> NewSimm9(Widen(o.bytes)) == Ok(o)
  {
    hide Within, Low32, Widen, SignExtend;
    if Within(bytes, 0xFF) {
      Fits9(bytes);
    }
    if o.InRange() {
      Field9(o.bytes);
      LowOfWiden(o.bytes);
    }
  }

  // ---- Offsets scaled by an access size ----

  datatype UScaledImm12 = UScaledImm12(scaled: U12, accessSize: nat) {
    function Bytes(): nat {
      scaled * accessSize
    }
  }

  function NewUScaledImm12(bytes: int, accessSize: nat): Result<UScaledImm12, EncodeError>
    requires accessSize > 0
  {
    if bytes < 0 || bytes % accessSize != 0 then Err(MisalignedOffset)
    else if bytes / accessSize > 0xFFF then Err(ImmediateOutOfRange)
    else
      AtLeast(bytes, accessSize, 0);
      Ok(UScaledImm12(bytes / accessSize, accessSize))
  }

  lemma ScaledBack(bytes: int, size: nat)
    requires size > 0 && bytes % size == 0
    ensures (bytes / size) * size == bytes
  {
  }

  lemma ScaledForth(scaled: nat, size: nat)
    requires size > 0
    ensures (scaled * size) / size == scaled && (scaled * size) % size == 0
  {
    AtLeast(scaled * size, size, scaled);
    AtLeast(scaled * size, size, scaled + 1);
    assert (scaled + 1) * size == scaled * size + size;
  }

  /** Exactly the multiples `0 .. 4095` of the access size are accepted, and read back. */
  lemma UScaledExact(bytes: int, accessSize: nat, scaled: U12)
    requires accessSize > 0
    ensures var r := NewUScaledImm12(bytes, accessSize);
            r.Ok? ==> r.value.accessSize == accessSize && r.value.Bytes() == bytes
    ensures var o := UScaledImm12(scaled, accessSize); NewUScaledImm12(o.Bytes(), accessSize) == Ok(o)
  {
    if NewUScaledImm12(bytes, accessSize).Ok? {
      ScaledBack(bytes, accessSize);
    }
    ScaledForth(scaled, accessSize);
  }

  type Scaled7 = n: int | -64 <= n < 64 witness 0

  datatype SImm7Scaled = SImm7Scaled(scaled: Scaled7, accessSize: nat) {
    function Bytes(): int {
      scaled * accessSize
    }
  }

  /** Truncating division, as the source divides. */
  function Quotient(x: int, d: nat): int
    requires d > 0
  {
    if x >= 0 then x / d else -(-x / d)
  }

  function NewSImm7Scaled(bytes: int, accessSize: nat): Result<SImm7Scaled, EncodeError>
    requires accessSize > 0
  {
    if bytes - Quotient(bytes, accessSize) * accessSize != 0 then Err(MisalignedOffset)
    else
      var scaled := Quotient(bytes, accessSize);
      if !(-64 <= scaled < 64) then Err(ImmediateOutOfRange) else Ok(SImm7Scaled(scaled, accessSize))
  }

  /** Exactly the multiples `-64 .. 63` of the access size are accepted, and read back. */
  lemma SImm7Exact(bytes: int, accessSize: nat, scaled: Scaled7)
    requires accessSize > 0
    ensures var r := NewSImm7Scaled(bytes, accessSize);
            r.Ok? ==> r.value.accessSize == accessSize && r.value.Bytes() == bytes
    ensures var o := SImm7Scaled(scaled, accessSize); NewSImm7Scaled(o.Bytes(), accessSize) == Ok(o)
  {
    var n: int := scaled;
    if n >= 0 {
      ScaledForth(n, accessSize);
    } else {
      ScaledForth(-n, accessSize);
      assert -(n * accessSize) == -n * accessSize;
    }
  }

  /** The search behind a logical immediate, as an operand. */
  method NewLogicalImm(value: Bitmask.Word, is64: bool) returns (r: Result<LogicalImm, EncodeError>)
    ensures var target := if is64 then value else Bitmask.And(value, Bitmask.LowOnes(32));
            && (r.Ok? ==> r.value.is64 == is64 && LogicalValue(r.value) == Some(target))
            && (r.Err? ==> forall imm: LogicalImm | imm.is64 == is64 :: LogicalValue(imm) != Some(target))
  {
    hide Bitmask.Decode;
    var target := if is64 then value else Bitmask.And(value, Bitmask.LowOnes(32));
    var t := Bitmask.EncodeBitmask(target, WidthOf(is64));
    match t {
      case Some(t) =>
        r := Ok(LogicalImm(t.n, t.immr, t.imms, is64));
      case None =>
        forall imm: LogicalImm | imm.is64 == is64 ensures LogicalValue(imm) != Some(target) {
          assert !Bitmask.Encodes(Bitmask.Triple(imm.n, imm.immr, imm.imms), target, WidthOf(is64));
        }
        r := Err(UnencodableLogicalImmediate);
    }
  }
}
