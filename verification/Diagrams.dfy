/** The encoding diagrams of the Arm Architecture Reference Manual (DDI 0487, sections C4.1, C6.2 and
    C7.2), operation by operation, and the encoder's words against them. */
module Diagrams {
  import opened Fields
  import opened Operands
  import opened Instructions
  import opened Layouts
  import opened Encoder
  import opened RoundTrip
  import opened EncodingExact

  // ---- Bits by their place ----

  function When(on: bool, bits: bv32): bv32 {
    if on then bits else 0
  }

  function X(is64: bool): bv32 {
    When(is64, 0x8000_0000)
  }

  function Double(double: bool): bv32 {
    When(double, 0x40_0000)
  }

  function Rd(n: U5): bv32 {
    ToBits(n, 5)
  }

  function Rn(n: U5): bv32 {
    ToBits(n, 5) << 5
  }

  function Ra(n: U5): bv32 {
    ToBits(n, 5) << 10
  }

  function Rm(n: U5): bv32 {
    ToBits(n, 5) << 16
  }

  // ---- The operations ----

  function MoveOf(op: MovWideOp): bv32 {
    match op
    case Movn => 0x1280_0000
    case Movz => 0x5280_0000
    case Movk => 0x7280_0000
  }

  /** ADD, ADDS, SUB, SUBS: the same two bits in all three forms. */
  function SumOf(op: AddSubOp, setFlags: bool): bv32 {
    match op
    case Add => When(setFlags, 0x2000_0000)
    case Sub => if setFlags then 0x6000_0000 else 0x4000_0000
  }

  function LogicalImmOf(op: LogicalImmOp): bv32 {
    match op
    case AndImm => 0x1200_0000
    case OrrImm => 0x3200_0000
    case EorImm => 0x5200_0000
    case AndsImm => 0x7200_0000
  }

  function LogicalOf(op: LogicalShiftOp): bv32 {
    match op
    case And => 0x0A00_0000
    case Bic => 0x0A20_0000
    case Orr => 0x2A00_0000
    case Orn => 0x2A20_0000
    case Eor => 0x4A00_0000
    case Eon => 0x4A20_0000
    case Ands => 0x6A00_0000
    case Bics => 0x6A20_0000
  }

  function ShiftOf(kind: ShiftKind): bv32 {
    match kind
    case Lsl => 0
    case Lsr => 0x40_0000
    case Asr => 0x80_0000
    case Ror => 0xC0_0000
  }

  function ExtendOf(kind: ExtendKind): bv32 {
    match kind
    case Uxtb => 0
    case Uxth => 0x2000
    case Uxtw => 0x4000
    case Uxtx => 0x6000
    case Sxtb => 0x8000
    case Sxth => 0xA000
    case Sxtw => 0xC000
    case Sxtx => 0xE000
  }

  /** SBFM, BFM and UBFM; bit 22 repeats the width. */
  function BitfieldOf(op: BitfieldOp, is64: bool): bv32 {
    match op
    case Sbfm => if is64 then 0x9340_0000 else 0x1300_0000
    case Bfm => if is64 then 0xB340_0000 else 0x3300_0000
    case Ubfm => if is64 then 0xD340_0000 else 0x5300_0000
  }

  function DataProc2Of(op: DataProc2Op): bv32 {
    match op
    case Udiv => 0x1AC0_0800
    case Sdiv => 0x1AC0_0C00
    case Lslv => 0x1AC0_2000
    case Lsrv => 0x1AC0_2400
    case Asrv => 0x1AC0_2800
    case Rorv => 0x1AC0_2C00
  }

  function DataProc3Of(op: DataProc3Op): bv32 {
    match op
    case Madd => 0x1B00_0000
    case Msub => 0x1B00_8000
    case Smulh => 0x1B40_0000
    case Umulh => 0x1BC0_0000
  }

  function DataProc1Of(op: DataProc1Op, is64: bool): bv32 {
    match op
    case Rbit => if is64 then 0xDAC0_0000 else 0x5AC0_0000
    case Clz => if is64 then 0xDAC0_1000 else 0x5AC0_1000
    case Rev => if is64 then 0xDAC0_0C00 else 0x5AC0_0800
  }

  function CondSelectOf(op: CondSelectOp): bv32 {
    match op
    case Csel => 0x1A80_0000
    case Csinc => 0x1A80_0400
    case Csinv => 0x5A80_0000
    case Csneg => 0x5A80_0400
  }

  /** A load or store of a general-purpose register with an unscaled offset. */
  function TransferOf(op: LdStOp): bv32 {
    match op
    case StrB => 0x3800_0000
    case LdrB => 0x3840_0000
    case LdrSb(true) => 0x3880_0000
    case LdrSb(false) => 0x38C0_0000
    case StrH => 0x7800_0000
    case LdrH => 0x7840_0000
    case LdrSh(true) => 0x7880_0000
    case LdrSh(false) => 0x78C0_0000
    case StrW => 0xB800_0000
    case LdrW => 0xB840_0000
    case LdrSw => 0xB880_0000
    case StrX => 0xF800_0000
    case LdrX => 0xF840_0000
  }

  /** The same of a floating-point register. */
  function FpTransferOf(isLoad: bool, double: bool): bv32 {
    if double then (if isLoad then 0xFC40_0000 else 0xFC00_0000)
    else if isLoad then 0xBC40_0000 else 0xBC00_0000
  }

  function OptionOf(extend: LdStExtend): bv32 {
    match extend
    case ByUxtw => 0x4000
    case ByLsl => 0x6000
    case BySxtw => 0xC000
    case BySxtx => 0xE000
  }

  function IndexOf(rm: bv32, option: bv32, shifted: bv32): bv32 {
    0x20_0800 | rm | option | shifted
  }

  /** What the addressing mode adds. */
  function ModeOf(mode: AddrMode): bv32 {
    match mode
    case UnsignedOffset(imm) => 0x0100_0000 | (ToBits(imm.scaled, 12) << 10)
    case Unscaled(simm) => (simm.bytes & 0x1FF) << 12
    case PostIndex(simm) => 0x400 | ((simm.bytes & 0x1FF) << 12)
    case PreIndex(simm) => 0xC00 | ((simm.bytes & 0x1FF) << 12)
    case ByRegister(ro) => IndexOf(Rm(ro.rm.num), OptionOf(ro.extend), When(ro.shifted, 0x1000))
  }

  function PairOf(index: PairIndex): bv32 {
    match index
    case PairPost => 0x2880_0000
    case Offset => 0x2900_0000
    case PairPre => 0x2980_0000
  }

  /** Seven bits, two's complement. */
  function Signed7(s: Scaled7): bv32 {
    ToBits(if s < 0 then 128 + s else s, 7)
  }

  function FpUnaryOf(op: FpUnaryOp): bv32 {
    match op
    case Fmov => 0x1E20_4000
    case Fabs => 0x1E20_C000
    case Fneg => 0x1E21_4000
    case Fsqrt => 0x1E21_C000
  }

  function FpBinOf(op: FpBinOp): bv32 {
    match op
    case Fmul => 0x1E20_0800
    case Fdiv => 0x1E20_1800
    case Fadd => 0x1E20_2800
    case Fsub => 0x1E20_3800
  }

  /** The conversions read the register at bit 5 and write the one at bit 0. */
  function ConvertOf(op: FpIntConvertOp, gp: U5, fp: U5): bv32 {
    match op
    case Scvtf => 0x1E22_0000 | Rn(gp) | Rd(fp)
    case Ucvtf => 0x1E23_0000 | Rn(gp) | Rd(fp)
    case Fcvtzs => 0x1E38_0000 | Rn(fp) | Rd(gp)
    case Fcvtzu => 0x1E39_0000 | Rn(fp) | Rd(gp)
  }

  function SystemOf(op: SysOp): bv32 {
    match op
    case Nop => 0xD503_201F
    case Brk(imm16) => 0xD420_0000 | (ToBits(imm16, 16) << 5)
    case Svc(imm16) => 0xD400_0001 | (ToBits(imm16, 16) << 5)
    case Udf(imm16) => ToBits(imm16, 16)
  }

  // ---- The instructions ----

  /** The word of a bit test: top bit of the bit number, operation, its other bits, offset, register. */
  function TestSum(top: bv32, op: bv32, b40: bv32, imm14: bv32, rt: bv32): bv32 {
    top | op | (b40 << 19) | (imm14 << 5) | rt
  }

  function CondSum(imm19: bv32, cond: Cond): bv32 {
    0x5400_0000 | (imm19 << 5) | (cond as bv32)
  }

  function CompareSum(is64: bool, nz: bool, imm19: bv32, rt: bv32): bv32 {
    X(is64) | (if nz then 0x3500_0000 else 0x3400_0000) | (imm19 << 5) | rt
  }

  function TestOf(nz: bool): bv32 {
    if nz then 0x3700_0000 else 0x3600_0000
  }

  /** The word the manual's diagram gives. */
  function WordOf(i: Inst): bv32 {
    match i
    case MovWide(op, rd, imm16, shift) =>
      X(rd.is64) | MoveOf(op) | (ToBits(shift / 16, 2) << 21) | (ToBits(imm16, 16) << 5) | Rd(rd.num)
    case AddSubImm(op, s, rd, rn, imm, _) =>
      0x1100_0000 | X(rd.is64) | SumOf(op, s) | When(imm.shift12, 0x40_0000) | ((imm.raw as bv32) << 10) | Rn(rn.num)
      | Rd(rd.num)
    case AddSubShiftedReg(op, s, rd, rn, rm, shift, _) =>
      0x0B00_0000 | X(rd.is64) | SumOf(op, s) | ShiftOf(shift.kind) | Rm(rm.num) | (ToBits(shift.amount, 6) << 10)
      | Rn(rn.num) | Rd(rd.num)
    case AddSubExtendedReg(op, s, rd, rn, rm, extend, _) =>
      0x0B20_0000 | X(rd.is64) | SumOf(op, s) | Rm(rm.num) | ExtendOf(extend.kind) | (ToBits(extend.amount, 3) << 10)
      | Rn(rn.num) | Rd(rd.num)
    case LogicalImmInst(op, rd, rn, imm, _) =>
      X(rd.is64) | LogicalImmOf(op) | (ToBits(imm.n, 1) << 22) | (ToBits(imm.immr, 6) << 16) | (ToBits(imm.imms, 6) << 10)
      | Rn(rn.num) | Rd(rd.num)
    case LogicalShiftedReg(op, rd, rn, rm, shift, _) =>
      X(rd.is64) | LogicalOf(op) | ShiftOf(shift.kind) | Rm(rm.num) | (ToBits(shift.amount, 6) << 10) | Rn(rn.num)
      | Rd(rd.num)
    case Bitfield(op, rd, rn, immr, imms, _) =>
      BitfieldOf(op, rd.is64) | (ToBits(immr, 6) << 16) | (ToBits(imms, 6) << 10) | Rn(rn.num) | Rd(rd.num)
    case DataProc2Source(op, rd, rn, rm) => X(rd.is64) | DataProc2Of(op) | Rm(rm.num) | Rn(rn.num) | Rd(rd.num)
    case DataProc3Source(op, rd, rn, rm, ra, _) =>
      X(rd.is64) | DataProc3Of(op) | Rm(rm.num) | Ra(ra.num) | Rn(rn.num) | Rd(rd.num)
    case DataProc1Source(op, rd, rn) => DataProc1Of(op, rd.is64) | Rn(rn.num) | Rd(rd.num)
    case CondSelect(op, rd, rn, rm, cond, _) =>
      X(rd.is64) | CondSelectOf(op) | Rm(rm.num) | ((cond as bv32) << 12) | Rn(rn.num) | Rd(rd.num)
    case Adr(rd, adr) => 0x1000_0000 | ((adr.count & 3) << 29) | (((adr.count >> 2) & 0x7_FFFF) << 5) | Rd(rd.num)
    case Adrp(rd, adr) => 0x9000_0000 | ((adr.count & 3) << 29) | (((adr.count >> 2) & 0x7_FFFF) << 5) | Rd(rd.num)
    case Branch(link, o) => (if link then 0x9400_0000 else 0x1400_0000) | (o.wordOff & 0x3FF_FFFF)
    case BranchCond(cond, o) => CondSum(o.wordOff & 0x7_FFFF, cond)
    case CompareBranch(is64, nz, rt, o) => CompareSum(is64, nz, o.wordOff & 0x7_FFFF, Rd(rt.num))
    case TestBranch(nz, rt, bit, o) =>
      TestSum(X(bit >= 32), TestOf(nz), ToBits(bit % 32, 5), o.wordOff & 0x3FFF, Rd(rt.num))
    case BranchReg(rn) => 0xD61F_0000 | Rn(rn.num)
    case BranchLinkReg(rn) => 0xD63F_0000 | Rn(rn.num)
    case Ret(rn) => 0xD65F_0000 | Rn(rn.num)
    case LoadStoreImm(op, rt, rn, mode) => TransferOf(op) | ModeOf(mode) | Rn(rn.num) | Rd(rt.num)
    case LoadStorePair(isLoad, is64, rt1, rt2, rn, imm, index) =>
      X(is64) | PairOf(index) | When(isLoad, 0x40_0000) | (Signed7(imm.scaled) << 15) | Ra(rt2.num) | Rn(rn.num)
      | Rd(rt1.num)
    case FpLoadStoreImm(isLoad, ft, rn, mode) => FpTransferOf(isLoad, ft.double) | ModeOf(mode) | Rn(rn.num) | Rd(ft.num)
    case System(op) => SystemOf(op)
    case FpDataProc1(op, fd, fn) => FpUnaryOf(op) | Double(fd.double) | Rn(fn.num) | Rd(fd.num)
    case FpConvert(fd, fn) => (if fd.double then 0x1E22_C000 else 0x1E62_4000) | Rn(fn.num) | Rd(fd.num)
    case FpDataProc2(op, fd, fn, fm) => FpBinOf(op) | Double(fd.double) | Rm(fm.num) | Rn(fn.num) | Rd(fd.num)
    case FpCompare(fn, fm) => 0x1E20_2000 | Double(fn.double) | Rm(fm.num) | Rn(fn.num)
    case FpCondSelect(fd, fn, fm, cond) =>
      0x1E20_0C00 | Double(fd.double) | Rm(fm.num) | ((cond as bv32) << 12) | Rn(fn.num) | Rd(fd.num)
    case FpImmMove(fd, imm) => 0x1E20_1000 | Double(fd.double) | (ToBits(imm.imm8, 8) << 13) | Rd(fd.num)
    case FpToGp(rd, fn) => 0x1E26_0000 | X(rd.is64) | Double(fn.double) | Rn(fn.num) | Rd(rd.num)
    case GpToFp(fd, rn) => 0x1E27_0000 | X(rn.is64) | Double(fd.double) | Rn(rn.num) | Rd(fd.num)
    case FpIntConvert(op, gp, fp) => X(gp.is64) | Double(fp.double) | ConvertOf(op, gp.num, fp.num)
    case FpMadd(fd, fn, fm, fa) => 0x1F00_0000 | Double(fd.double) | Rm(fm.num) | Ra(fa.num) | Rn(fn.num) | Rd(fd.num)
  }

  /** The encoder gives the manual's word. */
  predicate Encodes(i: Inst) {
    Encode(i) == WordOf(i)
  }

  lemma Same(i: Inst)
    requires Encode(i) == WordOf(i)
    ensures Encodes(i)
  {
    hide Encode, WordOf;
  }

  lemma ImmediatesEncode(i: Inst)
    requires i.MovWide? || i.AddSubImm? || i.LogicalImmInst?
    ensures Encodes(i)
  {
    hide ToBits;
  }

  lemma ShiftedSumsEncode(i: Inst)
    requires i.AddSubShiftedReg?
    ensures Encodes(i)
  {
    hide ToBits;
  }

  lemma ExtendedSumsEncode(i: Inst)
    requires i.AddSubExtendedReg?
    ensures Encodes(i)
  {
    hide ToBits;
  }

  lemma ShiftedLogicEncodes(i: Inst)
    requires i.LogicalShiftedReg?
    ensures Encodes(i)
  {
    hide ToBits;
  }

  lemma BitfieldsEncode(i: Inst)
    requires i.Bitfield?
    ensures Encodes(i)
  {
    hide ToBits;
  }

  lemma SelectsEncode(i: Inst)
    requires i.CondSelect?
    ensures Encodes(i)
  {
    hide ToBits;
  }

  lemma SourcesEncode(i: Inst)
    requires i.DataProc2Source?
    ensures Encodes(i)
  {
    hide ToBits;
  }

  lemma SingleSourcesEncode(i: Inst)
    requires i.DataProc1Source?
    ensures Encodes(i)
  {
    hide ToBits;
  }

  lemma ProductsEncode(i: Inst)
    requires i.DataProc3Source?
    ensures Encodes(i)
  {
    hide ToBits;
  }

  lemma AddressesEncode(i: Inst)
    requires (i.Adr? || i.Adrp?)
    ensures Encodes(i)
  {
    hide ToBits;
  }

  lemma JumpsEncode(i: Inst)
    requires i.BranchReg? || i.BranchLinkReg? || i.Ret?
    ensures Encodes(i)
  {
    hide ToBits;
  }

  lemma SystemsEncode(i: Inst)
    requires i.System?
    ensures Encodes(i)
  {
    hide ToBits;
  }

  lemma FpSumsEncode(i: Inst)
    requires i.FpDataProc1? || i.FpConvert? || i.FpDataProc2? || i.FpMadd?
    ensures Encodes(i)
  {
    hide ToBits;
  }

  lemma FpSelectsEncode(i: Inst)
    requires i.FpCompare? || i.FpCondSelect? || i.FpImmMove?
    ensures Encodes(i)
  {
    hide ToBits;
  }

  lemma PairsEncode(i: Inst)
    requires i.LoadStorePair?
    ensures Encodes(i)
  {
    hide ToBits;
  }

  lemma FpMovesEncode(i: Inst)
    requires i.FpToGp? || i.GpToFp?
    ensures Encodes(i)
  {
    hide ToBits;
  }

  lemma ConversionsOf(op: FpIntConvertOp, gp: Reg, fp: FpReg)
    ensures var codes := FpIntConvertCodes(op);
            var (source, target) := if op.Scvtf? || op.Ucvtf? then (Num(gp), FpNum(fp)) else (FpNum(fp), Num(gp));
            && Encode(FpIntConvert(op, gp, fp))
               == FpIntWord(Bit(gp.is64), Bit(fp.double), codes.0, codes.1, source, target)
            && WordOf(FpIntConvert(op, gp, fp)) == X(gp.is64) | Double(fp.double) | ConvertOf(op, gp.num, fp.num)
  {
    hide ToBits, FpIntWord, Bit, X, Double, ConvertOf;
  }

  lemma ConversionWord(sf: bool, double: bool, op: FpIntConvertOp, gp: U5, fp: U5)
    ensures var (source, target) := if op.Scvtf? || op.Ucvtf? then (Rd(gp), Rd(fp)) else (Rd(fp), Rd(gp));
            FpIntWord(Bit(sf), Bit(double), FpIntConvertCodes(op).0, FpIntConvertCodes(op).1, source, target)
            == X(sf) | Double(double) | ConvertOf(op, gp, fp)
  {
    hide ToBits;
    match op {
      case Scvtf =>
      case Ucvtf =>
      case Fcvtzs =>
      case Fcvtzu =>
    }
  }

  lemma FpConversionsEncode(op: FpIntConvertOp, gp: Reg, fp: FpReg)
    ensures Encodes(FpIntConvert(op, gp, fp))
  {
    ConversionsOf(op, gp, fp);
    ConversionWord(gp.is64, fp.double, op, gp.num, fp.num);
    hide ToBits, FpIntWord, Bit, X, Double, ConvertOf, Encode, WordOf, FpIntConvertCodes;
  }

  // ---- Branches ----

  lemma FieldIs(x: bv32, width: BranchWidth, off: bv32)
    requires FieldReads(x, width, off)
    ensures x == off & Mask(width)
  {
    match width {
      case Imm26 =>
      case Imm19 =>
      case Imm14 =>
    }
  }

  /** The field of an offset its form can hold is the offset cut to the field. */
  lemma OffsetField(o: BranchOffset, width: BranchWidth)
    requires o.InRange() && OffsetReads(o, width)
    ensures o.Encoding() == o.wordOff & Mask(width)
  {
    hide *;
    OffsetBack(o, width);
    FieldIs(o.Encoding(), width, o.wordOff);
  }

  lemma BranchesEncode(link: bool, o: BranchOffset)
    requires o.InRange() && OffsetReads(o, Imm26)
    ensures Encodes(Branch(link, o))
  {
    OffsetField(o, Imm26);
    hide OffsetReads, SignExtend;
  }

  lemma CondWord(x: bv32, cond: Cond)
    ensures BranchCondWord(x, CondBits(cond)) == CondSum(x, cond)
  {
  }

  lemma CondParts(cond: Cond, o: BranchOffset)
    ensures Encode(BranchCond(cond, o)) == BranchCondWord(o.Encoding(), CondBits(cond))
    ensures WordOf(BranchCond(cond, o)) == CondSum(o.wordOff & Mask(Imm19), cond)
  {
    hide BranchCondWord, CondBits, CondSum;
  }

  lemma ConditionalBranchesEncode(cond: Cond, o: BranchOffset)
    requires o.InRange() && OffsetReads(o, Imm19)
    ensures Encodes(BranchCond(cond, o))
  {
    hide *;
    OffsetField(o, Imm19);
    CondParts(cond, o);
    CondWord(o.Encoding(), cond);
    Same(BranchCond(cond, o));
  }

  lemma CompareWord(is64: bool, nz: bool, x: bv32, rt: bv32)
    ensures CompareBranchWord(Bit(is64), Bit(nz), x, rt) == CompareSum(is64, nz, x, rt)
  {
  }

  lemma CompareParts(is64: bool, nz: bool, rt: Reg, o: BranchOffset)
    ensures var i := CompareBranch(is64, nz, rt, o);
            && Encode(i) == CompareBranchWord(Bit(is64), Bit(nz), o.Encoding(), ToBits(rt.num, 5))
            && WordOf(i) == CompareSum(is64, nz, o.wordOff & Mask(Imm19), ToBits(rt.num, 5))
  {
    hide CompareBranchWord, Bit, CompareSum, ToBits;
  }

  lemma CompareBranchesEncode(is64: bool, nz: bool, rt: Reg, o: BranchOffset)
    requires o.InRange() && OffsetReads(o, Imm19)
    ensures Encodes(CompareBranch(is64, nz, rt, o))
  {
    hide *;
    OffsetField(o, Imm19);
    CompareParts(is64, nz, rt, o);
    CompareWord(is64, nz, o.Encoding(), ToBits(rt.num, 5));
    Same(CompareBranch(is64, nz, rt, o));
  }

  // ---- Loads and stores ----

  /** Size, register file and direction of a transfer, in their places. */
  function Kind(size: bv32, v: bv32, opc: bv32): bv32 {
    (size << 30) | (7 << 27) | (v << 26) | (opc << 22)
  }

  /** A transfer word is its kind, its mode, its base and its register. */
  predicate ModeEncodes(size: bv32, v: bv32, opc: bv32, rt: bv32, rn: bv32, mode: AddrMode) {
    EncodeLoadStore(size, v, opc, rt, rn, mode) == Kind(size, v, opc) | ModeOf(mode) | (rn << 5) | rt
  }

  lemma ScaledEncodes(size: bv32, v: bv32, opc: bv32, rt: bv32, rn: bv32, mode: AddrMode)
    requires mode.UnsignedOffset?
    ensures ModeEncodes(size, v, opc, rt, rn, mode)
  {
    hide ToBits;
  }

  lemma UnscaledEncodes(size: bv32, v: bv32, opc: bv32, rt: bv32, rn: bv32, simm: Simm9)
    ensures ModeEncodes(size, v, opc, rt, rn, Unscaled(simm))
  {
  }

  lemma PostIndexEncodes(size: bv32, v: bv32, opc: bv32, rt: bv32, rn: bv32, simm: Simm9)
    ensures ModeEncodes(size, v, opc, rt, rn, PostIndex(simm))
  {
  }

  lemma PreIndexEncodes(size: bv32, v: bv32, opc: bv32, rt: bv32, rn: bv32, simm: Simm9)
    ensures ModeEncodes(size, v, opc, rt, rn, PreIndex(simm))
  {
  }

  function Transfer(kind: bv32, mode: bv32, rn: bv32, rt: bv32): bv32 {
    kind | mode | (rn << 5) | rt
  }

  lemma IndexWord(size: bv32, v: bv32, opc: bv32, rm: bv32, option: bv32, on: bv32, rn: bv32, rt: bv32, x: bv32, y: bv32)
    requires option << 13 == x && on << 12 == y
    ensures LoadStoreRegWord(size, v, opc, rm, option, on, rn, rt)
            == Transfer(Kind(size, v, opc), IndexOf(rm << 16, x, y), rn, rt)
  {
  }

  lemma OptionsOf(ro: RegOffset)
    ensures OptionBits(ro.extend) << 13 == OptionOf(ro.extend) && Bit(ro.shifted) << 12 == When(ro.shifted, 0x1000)
  {
  }

  lemma IndexParts(size: bv32, v: bv32, opc: bv32, rt: bv32, rn: bv32, ro: RegOffset)
    ensures EncodeLoadStore(size, v, opc, rt, rn, ByRegister(ro))
            == LoadStoreRegWord(size, v, opc, Num(ro.rm), OptionBits(ro.extend), Bit(ro.shifted), rn, rt)
    ensures ModeOf(ByRegister(ro)) == IndexOf(Num(ro.rm) << 16, OptionOf(ro.extend), When(ro.shifted, 0x1000))
  {
    hide ToBits, LoadStoreRegWord, OptionBits, OptionOf, Bit, When, IndexOf;
  }

  lemma ModeIs(size: bv32, v: bv32, opc: bv32, rt: bv32, rn: bv32, mode: AddrMode)
    requires EncodeLoadStore(size, v, opc, rt, rn, mode) == Transfer(Kind(size, v, opc), ModeOf(mode), rn, rt)
    ensures ModeEncodes(size, v, opc, rt, rn, mode)
  {
    hide EncodeLoadStore, Kind, ModeOf;
  }

  lemma IndexEncodes(size: bv32, v: bv32, opc: bv32, rt: bv32, rn: bv32, ro: RegOffset)
    ensures ModeEncodes(size, v, opc, rt, rn, ByRegister(ro))
  {
    hide *;
    OptionsOf(ro);
    IndexParts(size, v, opc, rt, rn, ro);
    IndexWord(size, v, opc, Num(ro.rm), OptionBits(ro.extend), Bit(ro.shifted), rn, rt, OptionOf(ro.extend),
              When(ro.shifted, 0x1000));
    ModeIs(size, v, opc, rt, rn, ByRegister(ro));
  }

  lemma ModesEncode(size: bv32, v: bv32, opc: bv32, rt: bv32, rn: bv32, mode: AddrMode)
    ensures ModeEncodes(size, v, opc, rt, rn, mode)
  {
    hide ModeEncodes;
    match mode {
      case UnsignedOffset(_) => ScaledEncodes(size, v, opc, rt, rn, mode);
      case Unscaled(simm) => UnscaledEncodes(size, v, opc, rt, rn, simm);
      case PostIndex(simm) => PostIndexEncodes(size, v, opc, rt, rn, simm);
      case PreIndex(simm) => PreIndexEncodes(size, v, opc, rt, rn, simm);
      case ByRegister(ro) => IndexEncodes(size, v, opc, rt, rn, ro);
    }
  }

  lemma KindsEncode(op: LdStOp)
    ensures Kind(LdStCodes(op).0, 0, LdStCodes(op).1) == TransferOf(op)
  {
  }

  lemma TransfersEncode(op: LdStOp, rt: Reg, rn: Reg, mode: AddrMode)
    ensures Encodes(LoadStoreImm(op, rt, rn, mode))
  {
    hide ToBits, LdStCodes, TransferOf, Kind, ModeOf, EncodeLoadStore;
    ModesEncode(LdStCodes(op).0, 0, LdStCodes(op).1, Num(rt), Num(rn), mode);
    KindsEncode(op);
  }

  lemma FpTransfersEncode(isLoad: bool, ft: FpReg, rn: Reg, mode: AddrMode)
    ensures Encodes(FpLoadStoreImm(isLoad, ft, rn, mode))
  {
    hide ToBits, ModeOf, EncodeLoadStore;
    ModesEncode(FpSize(ft.double), 1, Bit(isLoad), FpNum(ft), Num(rn), mode);
    assert Kind(FpSize(ft.double), 1, Bit(isLoad)) == FpTransferOf(isLoad, ft.double);
  }

  // ---- Bit tests ----

  lemma BitNumber(bit: U6)
    ensures ToBits(bit / 32, 1) << 31 == X(bit >= 32)
    ensures bit % 32 == 31 ==> ToBits(bit % 32, 5) == 0x1F
  {
  }

  /** An offset too wide for its field does no harm where it meets ones. */
  lemma TestOffsetEncodes(bit: U6, o: BranchOffset)
    requires o.InRange() && TestOffsetReads(bit, o)
    ensures (ToBits(bit % 32, 5) << 19) | (o.Encoding() << 5) == (ToBits(bit % 32, 5) << 19) | ((o.wordOff & 0x3FFF) << 5)
  {
    BitNumber(bit);
    hide ToBits, SignExtend;
    if o.width.Imm14? {
    } else if OffsetReads(o, Imm14) {
      SmallOffset(o.wordOff);
    } else {
      SpillsOnes(o.wordOff);
    }
  }

  lemma SmallOffset(x: bv32)
    requires x < 0x2000
    ensures x & 0x3FFF == x && x & 0x7_FFFF == x && x & 0x3FF_FFFF == x
  {
  }

  lemma SpillsOnes(x: bv32)
    requires Backward14(x)
    ensures (0x1F << 19) | ((x & 0x7_FFFF) << 5) == (0x1F << 19) | ((x & 0x3FFF) << 5)
  {
  }

  lemma TestWord(top: bv32, b5: bv32, nz: bool, b40: bv32, x: bv32, y: bv32, rt: bv32)
    requires b5 << 31 == top && (b40 << 19) | (x << 5) == (b40 << 19) | (y << 5)
    ensures TestBranchWord(b5, Bit(nz), b40, x, rt) == TestSum(top, TestOf(nz), b40, y, rt)
  {
  }

  lemma TestParts(nz: bool, rt: Reg, bit: U6, o: BranchOffset)
    ensures var i := TestBranch(nz, rt, bit, o);
            && Encode(i)
               == TestBranchWord(ToBits(bit / 32, 1), Bit(nz), ToBits(bit % 32, 5), o.Encoding(), ToBits(rt.num, 5))
            && WordOf(i) == TestSum(X(bit >= 32), TestOf(nz), ToBits(bit % 32, 5), o.wordOff & 0x3FFF, ToBits(rt.num, 5))
  {
    hide ToBits, TestBranchWord, Bit, X;
  }

  lemma TestBranchesEncode(nz: bool, rt: Reg, bit: U6, o: BranchOffset)
    requires o.InRange() && TestOffsetReads(bit, o)
    ensures Encodes(TestBranch(nz, rt, bit, o))
  {
    TestParts(nz, rt, bit, o);
    hide *;
    BitNumber(bit);
    TestOffsetEncodes(bit, o);
    var b5, b40 := ToBits(bit / 32, 1), ToBits(bit % 32, 5);
    TestWord(X(bit >= 32), b5, nz, b40, o.Encoding(), o.wordOff & 0x3FFF, ToBits(rt.num, 5));
    Same(TestBranch(nz, rt, bit, o));
  }

  // ---- Main result ----

  /** Every instruction the constructors let through, whose offset its form can hold, is encoded as
      the manual's diagram says. */
  lemma EncodesManual(i: Inst)
    requires Constructed(i) && Faithful(i)
    ensures Encode(i) == WordOf(i)
  {
    hide Encodes;
    assert Encodes(i) by {
      match i {
        case MovWide(_, _, _, _) => ImmediatesEncode(i);
        case AddSubImm(_, _, _, _, _, _) => ImmediatesEncode(i);
        case LogicalImmInst(_, _, _, _, _) => ImmediatesEncode(i);
        case AddSubShiftedReg(_, _, _, _, _, _, _) => ShiftedSumsEncode(i);
        case AddSubExtendedReg(_, _, _, _, _, _, _) => ExtendedSumsEncode(i);
        case LogicalShiftedReg(_, _, _, _, _, _) => ShiftedLogicEncodes(i);
        case Bitfield(_, _, _, _, _, _) => BitfieldsEncode(i);
        case CondSelect(_, _, _, _, _, _) => SelectsEncode(i);
        case DataProc2Source(_, _, _, _) => SourcesEncode(i);
        case DataProc3Source(_, _, _, _, _, _) => ProductsEncode(i);
        case DataProc1Source(_, _, _) => SingleSourcesEncode(i);
        case Adr(_, _) => AddressesEncode(i);
        case Adrp(_, _) => AddressesEncode(i);
        case Branch(link, o) => BranchesEncode(link, o);
        case BranchCond(cond, o) => ConditionalBranchesEncode(cond, o);
        case CompareBranch(is64, nz, rt, o) => CompareBranchesEncode(is64, nz, rt, o);
        case TestBranch(nz, rt, bit, o) => TestBranchesEncode(nz, rt, bit, o);
        case BranchReg(_) => JumpsEncode(i);
        case BranchLinkReg(_) => JumpsEncode(i);
        case Ret(_) => JumpsEncode(i);
        case LoadStoreImm(op, rt, rn, mode) => TransfersEncode(op, rt, rn, mode);
        case LoadStorePair(_, _, _, _, _, _, _) => PairsEncode(i);
        case FpLoadStoreImm(isLoad, ft, rn, mode) => FpTransfersEncode(isLoad, ft, rn, mode);
        case System(_) => SystemsEncode(i);
        case FpDataProc1(_, _, _) => FpSumsEncode(i);
        case FpConvert(_, _) => FpSumsEncode(i);
        case FpDataProc2(_, _, _, _) => FpSumsEncode(i);
        case FpMadd(_, _, _, _) => FpSumsEncode(i);
        case FpCompare(_, _) => FpSelectsEncode(i);
        case FpCondSelect(_, _, _, _) => FpSelectsEncode(i);
        case FpImmMove(_, _) => FpSelectsEncode(i);
        case FpToGp(_, _) => FpMovesEncode(i);
        case GpToFp(_, _) => FpMovesEncode(i);
        case FpIntConvert(op, gp, fp) => FpConversionsEncode(op, gp, fp);
      }
    }
    assert Encode(i) == WordOf(i) by {
      UnfoldEncodes(i);
    }
  }

  lemma UnfoldEncodes(i: Inst)
    requires Encodes(i)
    ensures Encode(i) == WordOf(i)
  {
    hide Encode, WordOf;
  }
}
