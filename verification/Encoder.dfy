/** The encoder (crates/fors-asm/src/encode.rs), a decoder for its words, and the proof that the
    one reads back what the other wrote. */
module Encoder {
  import opened Wrappers
  import opened Fields
  import opened Operands
  import opened Instructions
  import opened Layouts

  // ---- Operands as fields, and fields as operands ----

  function Bit(b: bool): bv32 {
    if b then 1 else 0
  }

  function IsSet(x: bv32): bool {
    x == 1
  }

  lemma BitBack(b: bool)
    ensures Fits(Bit(b), 1) && IsSet(Bit(b)) == b
  {
  }

  function Num(r: Reg): bv32 {
    ToBits(r.num, 5)
  }

  function RegAt(x: bv32, is64: bool): Reg {
    Reg(Number5(x), is64, false)
  }

  /** A register without its reading of 31. */
  function Plain(r: Reg): Reg {
    r.(sp := false)
  }

  lemma NumBack(r: Reg)
    ensures Fits(Num(r), 0x1F) && RegAt(Num(r), r.is64) == Plain(r)
  {
    hide ToBits, FromBits, Fits;
    Back5(r.num);
  }

  function FpNum(r: FpReg): bv32 {
    ToBits(r.num, 5)
  }

  function FpRegAt(x: bv32, double: bool): FpReg {
    FpReg(Number5(x), double)
  }

  lemma FpNumBack(r: FpReg)
    ensures Fits(FpNum(r), 0x1F) && FpRegAt(FpNum(r), r.double) == r
  {
    hide ToBits, FromBits, Fits;
    Back5(r.num);
  }

  function CondBits(c: Cond): bv32 {
    c as bv32
  }

  function CondAt(x: bv32): Cond {
    (x & 0xF) as bv4
  }

  lemma CondBack(c: Cond)
    ensures Fits(CondBits(c), 0xF) && CondAt(CondBits(c)) == c
  {
  }

  function RawBits(raw: bv12): bv32 {
    raw as bv32
  }

  function RawAt(x: bv32): bv12 {
    (x & 0xFFF) as bv12
  }

  lemma RawBack(raw: bv12)
    ensures Fits(RawBits(raw), 0xFFF) && RawAt(RawBits(raw)) == raw
  {
  }

  function SimmAt(x: bv32): Simm9 {
    Simm9(SignExtend(x, 0x100, 0x1FF))
  }

  lemma SimmBack(s: Simm9)
    requires s.InRange()
    ensures Fits(s.Encoding(), 0x1FF) && SimmAt(s.Encoding()) == s
  {
    assert s.bytes & 0x1FF & !0x1FF == 0;
    SameExtension(s.bytes, 0x100, 0x1FF);
  }

  lemma SameExtension(x: bv32, sign: bv32, mask: bv32)
    ensures SignExtend(x & mask, sign, mask) == SignExtend(x, sign, mask)
  {
    assert x & mask & mask == x & mask;
  }

  function AdrAt(lo: bv32, hi: bv32): AdrOffset {
    AdrOffset(SignExtend(lo | (hi << 2), 0x10_0000, 0x1F_FFFF))
  }

  lemma AdrBack(o: AdrOffset)
    requires o.InRange()
    ensures Fits(o.Encoding().0, 3) && Fits(o.Encoding().1, 0x7_FFFF)
    ensures AdrAt(o.Encoding().0, o.Encoding().1) == o
  {
    var imm21 := o.count & 0x1F_FFFF;
    Rejoined(imm21);
    SameExtension(o.count, 0x10_0000, 0x1F_FFFF);
  }

  lemma Rejoined(x: bv32)
    ensures (x & 3) | ((x >> 2) << 2) == x
  {
  }

  function Imm7Bits(s: Scaled7): bv32 {
    ToBits(if s >= 0 then s else s + 128, 7)
  }

  function Imm7At(x: bv32): Scaled7 {
    FromBitsBelow(x, 7);
    Powers();
    var n := FromBits(x, 7);
    if n < 64 then n else n - 128
  }

  lemma Imm7Back(s: Scaled7)
    ensures Fits(Imm7Bits(s), 0x7F) && Imm7At(Imm7Bits(s)) == s
  {
    hide ToBits, FromBits, Fits;
    Back7(if s >= 0 then s else s + 128);
  }

  // ---- Operation codes ----

  function MovWideOpc(op: MovWideOp): bv32 {
    match op
    case Movn => 0
    case Movz => 2
    case Movk => 3
  }

  function MovWideOpcAt(x: bv32): Option<MovWideOp> {
    if x == 0 then Some(Movn)
    else if x == 2 then Some(Movz)
    else if x == 3 then Some(Movk)
    else None
  }

  lemma MovWideOpcBack(op: MovWideOp)
    ensures Fits(MovWideOpc(op), 0x3) && MovWideOpcAt(MovWideOpc(op)) == Some(op)
  {
  }

  function LogicalImmOpc(op: LogicalImmOp): bv32 {
    match op
    case AndImm => 0
    case OrrImm => 1
    case EorImm => 2
    case AndsImm => 3
  }

  function LogicalImmOpcAt(x: bv32): Option<LogicalImmOp> {
    if x == 0 then Some(AndImm)
    else if x == 1 then Some(OrrImm)
    else if x == 2 then Some(EorImm)
    else if x == 3 then Some(AndsImm)
    else None
  }

  lemma LogicalImmOpcBack(op: LogicalImmOp)
    ensures Fits(LogicalImmOpc(op), 0x3) && LogicalImmOpcAt(LogicalImmOpc(op)) == Some(op)
  {
  }

  function BitfieldOpc(op: BitfieldOp): bv32 {
    match op
    case Sbfm => 0
    case Bfm => 1
    case Ubfm => 2
  }

  function BitfieldOpcAt(x: bv32): Option<BitfieldOp> {
    if x == 0 then Some(Sbfm)
    else if x == 1 then Some(Bfm)
    else if x == 2 then Some(Ubfm)
    else None
  }

  lemma BitfieldOpcBack(op: BitfieldOp)
    ensures Fits(BitfieldOpc(op), 0x3) && BitfieldOpcAt(BitfieldOpc(op)) == Some(op)
  {
  }

  function DataProc2Opcode(op: DataProc2Op): bv32 {
    match op
    case Udiv => 2
    case Sdiv => 3
    case Lslv => 8
    case Lsrv => 9
    case Asrv => 0xa
    case Rorv => 0xb
  }

  function DataProc2OpcodeAt(x: bv32): Option<DataProc2Op> {
    if x == 2 then Some(Udiv)
    else if x == 3 then Some(Sdiv)
    else if x == 8 then Some(Lslv)
    else if x == 9 then Some(Lsrv)
    else if x == 0xa then Some(Asrv)
    else if x == 0xb then Some(Rorv)
    else None
  }

  lemma DataProc2OpcodeBack(op: DataProc2Op)
    ensures Fits(DataProc2Opcode(op), 0x3f) && DataProc2OpcodeAt(DataProc2Opcode(op)) == Some(op)
  {
  }

  function ShiftBits(op: ShiftKind): bv32 {
    match op
    case Lsl => 0
    case Lsr => 1
    case Asr => 2
    case Ror => 3
  }

  function ShiftBitsAt(x: bv32): Option<ShiftKind> {
    if x == 0 then Some(ShiftKind.Lsl)
    else if x == 1 then Some(ShiftKind.Lsr)
    else if x == 2 then Some(ShiftKind.Asr)
    else if x == 3 then Some(ShiftKind.Ror)
    else None
  }

  lemma ShiftBitsBack(op: ShiftKind)
    ensures Fits(ShiftBits(op), 0x3) && ShiftBitsAt(ShiftBits(op)) == Some(op)
  {
  }

  function ExtendBits(op: ExtendKind): bv32 {
    match op
    case Uxtb => 0
    case Uxth => 1
    case Uxtw => 2
    case Uxtx => 3
    case Sxtb => 4
    case Sxth => 5
    case Sxtw => 6
    case Sxtx => 7
  }

  function ExtendBitsAt(x: bv32): Option<ExtendKind> {
    if x == 0 then Some(ExtendKind.Uxtb)
    else if x == 1 then Some(ExtendKind.Uxth)
    else if x == 2 then Some(ExtendKind.Uxtw)
    else if x == 3 then Some(ExtendKind.Uxtx)
    else if x == 4 then Some(ExtendKind.Sxtb)
    else if x == 5 then Some(ExtendKind.Sxth)
    else if x == 6 then Some(ExtendKind.Sxtw)
    else if x == 7 then Some(ExtendKind.Sxtx)
    else None
  }

  lemma ExtendBitsBack(op: ExtendKind)
    ensures Fits(ExtendBits(op), 0x7) && ExtendBitsAt(ExtendBits(op)) == Some(op)
  {
  }

  function OptionBits(op: LdStExtend): bv32 {
    match op
    case ByUxtw => 2
    case ByLsl => 3
    case BySxtw => 6
    case BySxtx => 7
  }

  function OptionBitsAt(x: bv32): Option<LdStExtend> {
    if x == 2 then Some(ByUxtw)
    else if x == 3 then Some(ByLsl)
    else if x == 6 then Some(BySxtw)
    else if x == 7 then Some(BySxtx)
    else None
  }

  lemma OptionBitsBack(op: LdStExtend)
    ensures Fits(OptionBits(op), 0x7) && OptionBitsAt(OptionBits(op)) == Some(op)
  {
  }

  function PairMode(op: PairIndex): bv32 {
    match op
    case PairPost => 1
    case Offset => 2
    case PairPre => 3
  }

  function PairModeAt(x: bv32): Option<PairIndex> {
    if x == 1 then Some(PairPost)
    else if x == 2 then Some(Offset)
    else if x == 3 then Some(PairPre)
    else None
  }

  lemma PairModeBack(op: PairIndex)
    ensures Fits(PairMode(op), 0x3) && PairModeAt(PairMode(op)) == Some(op)
  {
  }

  function FpUnaryOpcode(op: FpUnaryOp): bv32 {
    match op
    case Fmov => 0
    case Fabs => 1
    case Fneg => 2
    case Fsqrt => 3
  }

  function FpUnaryOpcodeAt(x: bv32): Option<FpUnaryOp> {
    if x == 0 then Some(Fmov)
    else if x == 1 then Some(Fabs)
    else if x == 2 then Some(Fneg)
    else if x == 3 then Some(Fsqrt)
    else None
  }

  lemma FpUnaryOpcodeBack(op: FpUnaryOp)
    ensures Fits(FpUnaryOpcode(op), 0x3f) && FpUnaryOpcodeAt(FpUnaryOpcode(op)) == Some(op)
  {
  }

  function FpBinOpcode(op: FpBinOp): bv32 {
    match op
    case Fmul => 0
    case Fdiv => 1
    case Fadd => 2
    case Fsub => 3
  }

  function FpBinOpcodeAt(x: bv32): Option<FpBinOp> {
    if x == 0 then Some(Fmul)
    else if x == 1 then Some(Fdiv)
    else if x == 2 then Some(Fadd)
    else if x == 3 then Some(Fsub)
    else None
  }

  lemma FpBinOpcodeBack(op: FpBinOp)
    ensures Fits(FpBinOpcode(op), 0xf) && FpBinOpcodeAt(FpBinOpcode(op)) == Some(op)
  {
  }

  function LogicalShiftCodes(op: LogicalShiftOp): (bv32, bv32) {
    match op
    case And => (0, 0)
    case Bic => (0, 1)
    case Orr => (1, 0)
    case Orn => (1, 1)
    case Eor => (2, 0)
    case Eon => (2, 1)
    case Ands => (3, 0)
    case Bics => (3, 1)
  }

  function LogicalShiftAt(x: bv32, y: bv32): Option<LogicalShiftOp> {
    if x == 0 then
      (if y == 0 then Some(And) else if y == 1 then Some(Bic) else None)
    else if x == 1 then
      (if y == 0 then Some(Orr) else if y == 1 then Some(Orn) else None)
    else if x == 2 then
      (if y == 0 then Some(Eor) else if y == 1 then Some(Eon) else None)
    else if x == 3 then
      (if y == 0 then Some(Ands) else if y == 1 then Some(Bics) else None)
    else None
  }

  lemma LogicalShiftBack(op: LogicalShiftOp)
    ensures Fits(LogicalShiftCodes(op).0, 0x3) && Fits(LogicalShiftCodes(op).1, 1)
    ensures LogicalShiftAt(LogicalShiftCodes(op).0, LogicalShiftCodes(op).1) == Some(op)
  {
  }

  function DataProc3Codes(op: DataProc3Op): (bv32, bv32) {
    match op
    case Madd => (0, 0)
    case Msub => (0, 1)
    case Smulh => (2, 0)
    case Umulh => (6, 0)
  }

  function DataProc3At(x: bv32, y: bv32): Option<DataProc3Op> {
    if x == 0 then
      (if y == 0 then Some(Madd) else if y == 1 then Some(Msub) else None)
    else if x == 2 then
      (if y == 0 then Some(Smulh) else None)
    else if x == 6 then
      (if y == 0 then Some(Umulh) else None)
    else None
  }

  lemma DataProc3Back(op: DataProc3Op)
    ensures Fits(DataProc3Codes(op).0, 0x7) && Fits(DataProc3Codes(op).1, 1)
    ensures DataProc3At(DataProc3Codes(op).0, DataProc3Codes(op).1) == Some(op)
  {
  }

  function CondSelectCodes(op: CondSelectOp): (bv32, bv32) {
    match op
    case Csel => (0, 0)
    case Csinc => (0, 1)
    case Csinv => (1, 0)
    case Csneg => (1, 1)
  }

  function CondSelectAt(x: bv32, y: bv32): Option<CondSelectOp> {
    if x == 0 then
      (if y == 0 then Some(Csel) else if y == 1 then Some(Csinc) else None)
    else if x == 1 then
      (if y == 0 then Some(Csinv) else if y == 1 then Some(Csneg) else None)
    else None
  }

  lemma CondSelectBack(op: CondSelectOp)
    ensures Fits(CondSelectCodes(op).0, 1) && Fits(CondSelectCodes(op).1, 0x3)
    ensures CondSelectAt(CondSelectCodes(op).0, CondSelectCodes(op).1) == Some(op)
  {
  }

  function FpIntConvertCodes(op: FpIntConvertOp): (bv32, bv32) {
    match op
    case Scvtf => (0, 2)
    case Ucvtf => (0, 3)
    case Fcvtzs => (3, 0)
    case Fcvtzu => (3, 1)
  }

  function FpIntConvertAt(x: bv32, y: bv32): Option<FpIntConvertOp> {
    if x == 0 then
      (if y == 2 then Some(Scvtf) else if y == 3 then Some(Ucvtf) else None)
    else if x == 3 then
      (if y == 0 then Some(Fcvtzs) else if y == 1 then Some(Fcvtzu) else None)
    else None
  }

  lemma FpIntConvertBack(op: FpIntConvertOp)
    ensures Fits(FpIntConvertCodes(op).0, 0x3) && Fits(FpIntConvertCodes(op).1, 0x7)
    ensures FpIntConvertAt(FpIntConvertCodes(op).0, FpIntConvertCodes(op).1) == Some(op)
  {
  }

  function LdStCodes(op: LdStOp): (bv32, bv32) {
    match op
    case StrB => (0, 0)
    case LdrB => (0, 1)
    case LdrSb(true) => (0, 2)
    case LdrSb(false) => (0, 3)
    case StrH => (1, 0)
    case LdrH => (1, 1)
    case LdrSh(true) => (1, 2)
    case LdrSh(false) => (1, 3)
    case StrW => (2, 0)
    case LdrW => (2, 1)
    case LdrSw => (2, 2)
    case StrX => (3, 0)
    case LdrX => (3, 1)
  }

  function LdStAt(x: bv32, y: bv32): Option<LdStOp> {
    if x == 0 then
      (if y == 0 then Some(StrB) else if y == 1 then Some(LdrB) else if y == 2 then Some(LdrSb(true)) else if y == 3 then Some(LdrSb(false)) else None)
    else if x == 1 then
      (if y == 0 then Some(StrH) else if y == 1 then Some(LdrH) else if y == 2 then Some(LdrSh(true)) else if y == 3 then Some(LdrSh(false)) else None)
    else if x == 2 then
      (if y == 0 then Some(StrW) else if y == 1 then Some(LdrW) else if y == 2 then Some(LdrSw) else None)
    else if x == 3 then
      (if y == 0 then Some(StrX) else if y == 1 then Some(LdrX) else None)
    else None
  }

  predicate LdStReads(op: LdStOp) {
    && Fits(LdStCodes(op).0, 3) && Fits(LdStCodes(op).1, 3)
    && LdStAt(LdStCodes(op).0, LdStCodes(op).1) == Some(op)
  }

  lemma LdStBack(op: LdStOp)
    ensures LdStReads(op)
  {
    hide LdStReads;
    match op {
      case LdrSb(is64) => LdStExtends(is64);
      case LdrSh(is64) => LdStExtends(is64);
      case StrB => LdStBytes();
      case LdrB => LdStBytes();
      case StrH => LdStBytes();
      case LdrH => LdStBytes();
      case StrW => LdStWords();
      case LdrW => LdStWords();
      case LdrSw => LdStWords();
      case StrX => LdStWords();
      case LdrX => LdStWords();
    }
  }

  lemma LdStBytes()
    ensures LdStReads(StrB) && LdStReads(LdrB) && LdStReads(StrH) && LdStReads(LdrH)
  {
  }

  lemma LdStWords()
    ensures LdStReads(StrW) && LdStReads(LdrW) && LdStReads(LdrSw) && LdStReads(StrX) && LdStReads(LdrX)
  {
  }

  lemma LdStExtends(is64: bool)
    ensures LdStReads(LdrSb(is64)) && LdStReads(LdrSh(is64))
  {
    assert LdStReads(LdrSb(true)) && LdStReads(LdrSh(true));
    assert LdStReads(LdrSb(false)) && LdStReads(LdrSh(false));
  }

  /** `REV` has a code per width. */
  function DataProc1Opcode(op: DataProc1Op, is64: bool): bv32 {
    match op
    case Rbit => 0
    case Clz => 4
    case Rev => if is64 then 3 else 2
  }

  function DataProc1At(x: bv32, is64: bool): Option<DataProc1Op> {
    if x == 0 then Some(Rbit)
    else if x == 4 then Some(Clz)
    else if x == (if is64 then 3 else 2) then Some(Rev)
    else None
  }

  lemma DataProc1Back(op: DataProc1Op, is64: bool)
    ensures Fits(DataProc1Opcode(op, is64), 0x3F) && DataProc1At(DataProc1Opcode(op, is64), is64) == Some(op)
  {
  }

  // ---- The encoder ----

  function Encode(i: Inst): bv32 {
    match i
    case MovWide(op, rd, imm16, shift) =>
      MovWideWord(Bit(rd.is64), MovWideOpc(op), ToBits(shift / 16, 2), ToBits(imm16, 16), Num(rd))
    case AddSubImm(op, setFlags, rd, rn, imm, _) =>
      AddSubImmWord(Bit(rd.is64), Bit(op.Sub?), Bit(setFlags), Bit(imm.shift12), RawBits(imm.raw), Num(rn), Num(rd))
    case LogicalImmInst(op, rd, rn, imm, _) =>
      LogicalImmWord(Bit(rd.is64), LogicalImmOpc(op), ToBits(imm.n, 1), ToBits(imm.immr, 6), ToBits(imm.imms, 6),
                     Num(rn), Num(rd))
    case Bitfield(op, rd, rn, immr, imms, _) =>
      BitfieldWord(Bit(rd.is64), BitfieldOpc(op), Bit(rd.is64), ToBits(immr, 6), ToBits(imms, 6), Num(rn), Num(rd))
    case Adr(rd, adr) => AdrWord(adr.Encoding().0, adr.Encoding().1, Num(rd))
    case Adrp(rd, adr) => AdrpWord(adr.Encoding().0, adr.Encoding().1, Num(rd))
    case AddSubShiftedReg(op, setFlags, rd, rn, rm, shift, _) =>
      AddSubShiftedWord(Bit(rd.is64), Bit(op.Sub?), Bit(setFlags), ShiftBits(shift.kind), Num(rm),
                        ToBits(shift.amount, 6), Num(rn), Num(rd))
    case AddSubExtendedReg(op, setFlags, rd, rn, rm, extend, _) =>
      AddSubExtendedWord(Bit(rd.is64), Bit(op.Sub?), Bit(setFlags), Num(rm), ExtendBits(extend.kind),
                         ToBits(extend.amount, 3), Num(rn), Num(rd))
    case LogicalShiftedReg(op, rd, rn, rm, shift, _) =>
      LogicalShiftedWord(Bit(rd.is64), LogicalShiftCodes(op).0, ShiftBits(shift.kind), LogicalShiftCodes(op).1, Num(rm),
                         ToBits(shift.amount, 6), Num(rn), Num(rd))
    case DataProc2Source(op, rd, rn, rm) =>
      DataProc2Word(Bit(rd.is64), Num(rm), DataProc2Opcode(op), Num(rn), Num(rd))
    case DataProc3Source(op, rd, rn, rm, ra, _) =>
      DataProc3Word(Bit(rd.is64), DataProc3Codes(op).0, Num(rm), DataProc3Codes(op).1, Num(ra), Num(rn), Num(rd))
    case DataProc1Source(op, rd, rn) =>
      DataProc1Word(Bit(rd.is64), DataProc1Opcode(op, rd.is64), Num(rn), Num(rd))
    case CondSelect(op, rd, rn, rm, cond, _) =>
      CondSelectWord(Bit(rd.is64), CondSelectCodes(op).0, Num(rm), CondBits(cond), CondSelectCodes(op).1, Num(rn), Num(rd))
    case Branch(link, offset) => BranchWord(Bit(link), offset.Encoding())
    case BranchCond(cond, offset) => BranchCondWord(offset.Encoding(), CondBits(cond))
    case CompareBranch(is64, isNonzero, rt, offset) =>
      CompareBranchWord(Bit(is64), Bit(isNonzero), offset.Encoding(), Num(rt))
    case TestBranch(isNonzero, rt, bit, offset) =>
      TestBranchWord(ToBits(bit / 32, 1), Bit(isNonzero), ToBits(bit % 32, 5), offset.Encoding(), Num(rt))
    case BranchReg(rn) => BranchRegWord(Num(rn))
    case BranchLinkReg(rn) => BranchLinkRegWord(Num(rn))
    case Ret(rn) => RetWord(Num(rn))
    case System(op) => EncodeSystem(op)
    case LoadStoreImm(op, rt, rn, mode) =>
      EncodeLoadStore(LdStCodes(op).0, 0, LdStCodes(op).1, Num(rt), Num(rn), mode)
    case LoadStorePair(isLoad, is64, rt1, rt2, rn, imm, index) =>
      LoadStorePairWord(if is64 then 2 else 0, PairMode(index), Bit(isLoad), Imm7Bits(imm.scaled), Num(rt2), Num(rn), Num(rt1))
    case FpLoadStoreImm(isLoad, ft, rn, mode) =>
      EncodeLoadStore(FpSize(ft.double), 1, Bit(isLoad), FpNum(ft), Num(rn), mode)
    case FpDataProc1(op, fd, fn) => FpDataProc1Word(Bit(fd.double), FpUnaryOpcode(op), FpNum(fn), FpNum(fd))
    case FpConvert(fd, fn) =>
      FpDataProc1Word(Bit(!fd.double), if fd.double then 5 else 4, FpNum(fn), FpNum(fd))
    case FpDataProc2(op, fd, fn, fm) =>
      FpDataProc2Word(Bit(fd.double), FpNum(fm), FpBinOpcode(op), FpNum(fn), FpNum(fd))
    case FpCompare(fn, fm) => FpCompareWord(Bit(fn.double), FpNum(fm), FpNum(fn))
    case FpCondSelect(fd, fn, fm, cond) =>
      FpCondSelectWord(Bit(fd.double), FpNum(fm), CondBits(cond), FpNum(fn), FpNum(fd))
    case FpImmMove(fd, imm) => FpImmMoveWord(Bit(fd.double), ToBits(imm.imm8, 8), FpNum(fd))
    case FpToGp(rd, fn) => FpIntWord(Bit(rd.is64), Bit(fn.double), 0, 6, FpNum(fn), Num(rd))
    case GpToFp(fd, rn) => FpIntWord(Bit(rn.is64), Bit(fd.double), 0, 7, Num(rn), FpNum(fd))
    case FpIntConvert(op, gp, fp) =>
      if op.Scvtf? || op.Ucvtf? then
        FpIntWord(Bit(gp.is64), Bit(fp.double), FpIntConvertCodes(op).0, FpIntConvertCodes(op).1, Num(gp), FpNum(fp))
      else
        FpIntWord(Bit(gp.is64), Bit(fp.double), FpIntConvertCodes(op).0, FpIntConvertCodes(op).1, FpNum(fp), Num(gp))
    case FpMadd(fd, fn, fm, fa) => FpMaddWord(Bit(fd.double), FpNum(fm), FpNum(fa), FpNum(fn), FpNum(fd))
  }

  function FpSize(double: bool): bv32 {
    if double then 3 else 2
  }

  function EncodeSystem(op: SysOp): bv32 {
    match op
    case Nop => NopWord()
    case Brk(imm16) => BrkWord(ToBits(imm16, 16))
    case Svc(imm16) => SvcWord(ToBits(imm16, 16))
    case Udf(imm16) => UdfWord(ToBits(imm16, 16))
  }

  function EncodeLoadStore(size: bv32, v: bv32, opc: bv32, rt: bv32, rn: bv32, mode: AddrMode): bv32 {
    match mode
    case UnsignedOffset(imm) => LoadStoreScaledWord(size, v, opc, ToBits(imm.scaled, 12), rn, rt)
    case Unscaled(simm) => LoadStoreSimm9Word(size, v, opc, simm.Encoding(), 0, rn, rt)
    case PostIndex(simm) => LoadStoreSimm9Word(size, v, opc, simm.Encoding(), 1, rn, rt)
    case PreIndex(simm) => LoadStoreSimm9Word(size, v, opc, simm.Encoding(), 3, rn, rt)
    case ByRegister(ro) => LoadStoreRegWord(size, v, opc, Num(ro.rm), OptionBits(ro.extend), Bit(ro.shifted), rn, rt)
  }

  // ---- The decoder: what a word of each shape says ----

  function OffsetAt(x: bv32, width: BranchWidth): BranchOffset {
    BranchOffset(width, SignExtend(x, SignBit(width), Mask(width)))
  }

  function Decode(w: bv32): Option<Inst> {
    match ShapeOf(w)
    case SMovWide => DecodeMovWide(w)
    case SAddSubImm => DecodeAddSubImm(w)
    case SLogicalImm => DecodeLogicalImm(w)
    case SBitfield => DecodeBitfield(w)
    case SAdr => DecodeAdr(w)
    case SAdrp => DecodeAdrp(w)
    case SAddSubShifted => DecodeAddSubShifted(w)
    case SAddSubExtended => DecodeAddSubExtended(w)
    case SLogicalShifted => DecodeLogicalShifted(w)
    case SDataProc2 => DecodeDataProc2(w)
    case SDataProc1 => DecodeDataProc1(w)
    case SDataProc3 => DecodeDataProc3(w)
    case SCondSelect => DecodeCondSelect(w)
    case SBranch => DecodeBranch(w)
    case SBranchCond => DecodeBranchCond(w)
    case SCompareBranch => DecodeCompareBranch(w)
    case STestBranch => DecodeTestBranch(w)
    case SBranchReg => DecodeBranchReg(w)
    case SBranchLinkReg => DecodeBranchLinkReg(w)
    case SRet => DecodeRet(w)
    case SNop => Some(System(Nop))
    case SBrk => DecodeBrk(w)
    case SSvc => DecodeSvc(w)
    case SUdf => DecodeUdf(w)
    case SLoadStoreScaled => DecodeLoadStoreScaled(w)
    case SLoadStoreSimm9 => DecodeLoadStoreSimm9(w)
    case SLoadStoreReg => DecodeLoadStoreReg(w)
    case SLoadStorePair => DecodeLoadStorePair(w)
    case SFpDataProc1 => DecodeFpDataProc1(w)
    case SFpDataProc2 => DecodeFpDataProc2(w)
    case SFpCompare => DecodeFpCompare(w)
    case SFpCondSelect => DecodeFpCondSelect(w)
    case SFpImmMove => DecodeFpImmMove(w)
    case SFpInt => DecodeFpInt(w)
    case SFpMadd => DecodeFpMadd(w)
    case Unknown => None
  }

  function DecodeAdr(w: bv32): (r: Option<Inst>)
    ensures r.Some? ==> r.value.Adr?
  {
    Some(Adr(RegAt(Rd(w), true), AdrAt(ImmLo(w), Off19(w))))
  }

  function DecodeAdrp(w: bv32): (r: Option<Inst>)
    ensures r.Some? ==> r.value.Adrp?
  {
    Some(Adrp(RegAt(Rd(w), true), AdrAt(ImmLo(w), Off19(w))))
  }

  function DecodeBranch(w: bv32): (r: Option<Inst>)
    ensures r.Some? ==> r.value.Branch?
  {
    Some(Branch(IsSet(Sf(w)), OffsetAt(Off26(w), Imm26)))
  }

  function DecodeBranchCond(w: bv32): (r: Option<Inst>)
    ensures r.Some? ==> r.value.BranchCond?
  {
    Some(BranchCond(CondAt(Cond0(w)), OffsetAt(Off19(w), Imm19)))
  }

  function DecodeBranchReg(w: bv32): (r: Option<Inst>)
    ensures r.Some? ==> r.value.BranchReg?
  {
    Some(BranchReg(RegAt(Rn(w), true)))
  }

  function DecodeBranchLinkReg(w: bv32): (r: Option<Inst>)
    ensures r.Some? ==> r.value.BranchLinkReg?
  {
    Some(BranchLinkReg(RegAt(Rn(w), true)))
  }

  function DecodeRet(w: bv32): (r: Option<Inst>)
    ensures r.Some? ==> r.value.Ret?
  {
    Some(Ret(RegAt(Rn(w), true)))
  }

  function DecodeBrk(w: bv32): (r: Option<Inst>)
    ensures r.Some? ==> r.value.System?
  {
    Some(System(Brk(Number16(Imm16(w)))))
  }

  function DecodeSvc(w: bv32): (r: Option<Inst>)
    ensures r.Some? ==> r.value.System?
  {
    Some(System(Svc(Number16(Imm16(w)))))
  }

  function DecodeUdf(w: bv32): (r: Option<Inst>)
    ensures r.Some? ==> r.value.System?
  {
    Some(System(Udf(Number16(Low16(w)))))
  }

  function DecodeFpCompare(w: bv32): (r: Option<Inst>)
    ensures r.Some? ==> r.value.FpCompare?
  {
    Some(FpCompare(FpRegAt(Rn(w), IsSet(N22(w))), FpRegAt(Rm(w), IsSet(N22(w)))))
  }

  function DecodeFpImmMove(w: bv32): (r: Option<Inst>)
    ensures r.Some? ==> r.value.FpImmMove?
  {
    Some(FpImmMove(FpRegAt(Rd(w), IsSet(N22(w))), FpImm8(Number8(Imm8(w)), IsSet(N22(w)))))
  }

  function DecodeMovWide(w: bv32): (r: Option<Inst>)
    ensures r.Some? ==> r.value.MovWide?
  {
    var op := MovWideOpcAt(Opc29(w));
    if op.None? then None
    else Some(MovWide(op.value, RegAt(Rd(w), IsSet(Sf(w))), Number16(Imm16(w)), 16 * Number2(Hw(w))))
  }

  function DecodeAddSubImm(w: bv32): (r: Option<Inst>)
    ensures r.Some? ==> r.value.AddSubImm?
  {
    var is64 := IsSet(Sf(w));
    Some(AddSubImm(if IsSet(Op30(w)) then Sub else Add, IsSet(S29(w)), RegAt(Rd(w), is64), RegAt(Rn(w), is64),
                   Uimm12Lsl(RawAt(Imm12(w)), IsSet(N22(w))), NoAddSubAlias))
  }

  function DecodeLogicalImm(w: bv32): (r: Option<Inst>)
    ensures r.Some? ==> r.value.LogicalImmInst?
  {
    var op, is64 := LogicalImmOpcAt(Opc29(w)), IsSet(Sf(w));
    if op.None? then None
    else Some(LogicalImmInst(op.value, RegAt(Rd(w), is64), RegAt(Rn(w), is64),
                             LogicalImm(Number1(N22(w)), Number6(Immr(w)), Number6(Imm6(w)), is64), NoLogicalAlias))
  }

  function DecodeBitfield(w: bv32): (r: Option<Inst>)
    ensures r.Some? ==> r.value.Bitfield?
  {
    var op, is64 := BitfieldOpcAt(Opc29(w)), IsSet(Sf(w));
    if op.None? || IsSet(N22(w)) != is64 then None
    else Some(Bitfield(op.value, RegAt(Rd(w), is64), RegAt(Rn(w), is64), Number6(Immr(w)), Number6(Imm6(w)), NoBitfieldAlias))
  }

  function DecodeAddSubShifted(w: bv32): (r: Option<Inst>)
    ensures r.Some? ==> r.value.AddSubShiftedReg?
  {
    var kind, is64 := ShiftBitsAt(Shift22(w)), IsSet(Sf(w));
    if kind.None? then None
    else Some(AddSubShiftedReg(if IsSet(Op30(w)) then Sub else Add, IsSet(S29(w)), RegAt(Rd(w), is64), RegAt(Rn(w), is64),
                               RegAt(Rm(w), is64), RegShift(kind.value, Number6(Imm6(w))), NoAddSubAlias))
  }

  /** The extend says how wide `rm` is. */
  function DecodeAddSubExtended(w: bv32): (r: Option<Inst>)
    ensures r.Some? ==> r.value.AddSubExtendedReg?
  {
    var kind, is64 := ExtendBitsAt(Ext13(w)), IsSet(Sf(w));
    if kind.None? then None
    else Some(AddSubExtendedReg(if IsSet(Op30(w)) then Sub else Add, IsSet(S29(w)), RegAt(Rd(w), is64), RegAt(Rn(w), is64),
                                RegAt(Rm(w), kind.value.Uxtx? || kind.value.Sxtx?),
                                RegExtend(kind.value, Number3(Imm3(w))), NoAddSubAlias))
  }

  function DecodeLogicalShifted(w: bv32): (r: Option<Inst>)
    ensures r.Some? ==> r.value.LogicalShiftedReg?
  {
    var op, kind, is64 := LogicalShiftAt(Opc29(w), N21(w)), ShiftBitsAt(Shift22(w)), IsSet(Sf(w));
    if op.None? || kind.None? then None
    else Some(LogicalShiftedReg(op.value, RegAt(Rd(w), is64), RegAt(Rn(w), is64), RegAt(Rm(w), is64),
                                RegShift(kind.value, Number6(Imm6(w))), NoLogicalAlias))
  }

  function DecodeDataProc2(w: bv32): (r: Option<Inst>)
    ensures r.Some? ==> r.value.DataProc2Source?
  {
    var op, is64 := DataProc2OpcodeAt(Imm6(w)), IsSet(Sf(w));
    if op.None? then None
    else Some(DataProc2Source(op.value, RegAt(Rd(w), is64), RegAt(Rn(w), is64), RegAt(Rm(w), is64)))
  }

  function DecodeDataProc1(w: bv32): (r: Option<Inst>)
    ensures r.Some? ==> r.value.DataProc1Source?
  {
    var is64 := IsSet(Sf(w));
    var op := DataProc1At(Imm6(w), is64);
    if op.None? then None else Some(DataProc1Source(op.value, RegAt(Rd(w), is64), RegAt(Rn(w), is64)))
  }

  function DecodeDataProc3(w: bv32): (r: Option<Inst>)
    ensures r.Some? ==> r.value.DataProc3Source?
  {
    var op, is64 := DataProc3At(Op31(w), O15(w)), IsSet(Sf(w));
    if op.None? then None
    else Some(DataProc3Source(op.value, RegAt(Rd(w), is64), RegAt(Rn(w), is64), RegAt(Rm(w), is64), RegAt(Ra(w), is64), false))
  }

  function DecodeCondSelect(w: bv32): (r: Option<Inst>)
    ensures r.Some? ==> r.value.CondSelect?
  {
    var op, is64 := CondSelectAt(Op30(w), Op10(w)), IsSet(Sf(w));
    if op.None? then None
    else Some(CondSelect(op.value, RegAt(Rd(w), is64), RegAt(Rn(w), is64), RegAt(Rm(w), is64), CondAt(Cond12(w)), NoCondAlias))
  }

  function DecodeCompareBranch(w: bv32): (r: Option<Inst>)
    ensures r.Some? ==> r.value.CompareBranch?
  {
    var is64 := IsSet(Sf(w));
    Some(CompareBranch(is64, IsSet(Nz(w)), RegAt(Rd(w), is64), OffsetAt(Off19(w), Imm19)))
  }

  /** A bit above 31 makes the register an X register. */
  function DecodeTestBranch(w: bv32): (r: Option<Inst>)
    ensures r.Some? ==> r.value.TestBranch?
  {
    var bit := 32 * Number1(Sf(w)) + Number5(B40(w));
    Some(TestBranch(IsSet(Nz(w)), RegAt(Rd(w), bit >= 32), bit, OffsetAt(Off14(w), Imm14)))
  }

  function DecodeLoadStore(w: bv32, mode: AddrMode): (r: Option<Inst>)
    ensures r.Some? ==> r.value.LoadStoreImm? || r.value.FpLoadStoreImm?
  {
    if IsSet(V(w)) then
      if Shift22(w) == 0 || Shift22(w) == 1 then
        if Size(w) == 2 || Size(w) == 3 then
          Some(FpLoadStoreImm(IsSet(Shift22(w)), FpRegAt(Rd(w), Size(w) == 3), RegAt(Rn(w), true), mode))
        else None
      else None
    else
      var op := LdStAt(Size(w), Shift22(w));
      if op.None? then None else Some(LoadStoreImm(op.value, RegAt(Rd(w), RtIs64(op.value)), RegAt(Rn(w), true), mode))
  }

  /** The size of an access in bytes, as the word's own size field gives it. */
  function SizeInBytes(size: bv32): nat {
    if size == 0 then 1 else if size == 1 then 2 else if size == 2 then 4 else 8
  }

  function DecodeLoadStoreScaled(w: bv32): (r: Option<Inst>)
    ensures r.Some? ==> r.value.LoadStoreImm? || r.value.FpLoadStoreImm?
  {
    DecodeLoadStore(w, UnsignedOffset(UScaledImm12(Number12(Imm12(w)), SizeInBytes(Size(w)))))
  }

  function DecodeLoadStoreSimm9(w: bv32): (r: Option<Inst>)
    ensures r.Some? ==> r.value.LoadStoreImm? || r.value.FpLoadStoreImm?
  {
    var simm := SimmAt(Imm9(w));
    if Op10(w) == 0 then DecodeLoadStore(w, Unscaled(simm))
    else if Op10(w) == 1 then DecodeLoadStore(w, PostIndex(simm))
    else if Op10(w) == 3 then DecodeLoadStore(w, PreIndex(simm))
    else None
  }

  function DecodeLoadStoreReg(w: bv32): (r: Option<Inst>)
    ensures r.Some? ==> r.value.LoadStoreImm? || r.value.FpLoadStoreImm?
  {
    var extend := OptionBitsAt(Ext13(w));
    if extend.None? then None
    else DecodeLoadStore(w, ByRegister(RegOffset(RegAt(Rm(w), RmIs64(extend.value)), extend.value, IsSet(S12(w)))))
  }

  function DecodeLoadStorePair(w: bv32): (r: Option<Inst>)
    ensures r.Some? ==> r.value.LoadStorePair?
  {
    var index := PairModeAt(Mode23(w));
    if index.None? || (Size(w) != 0 && Size(w) != 2) then None else
      var is64 := Size(w) == 2;
      Some(LoadStorePair(IsSet(N22(w)), is64, RegAt(Rd(w), is64), RegAt(Ra(w), is64), RegAt(Rn(w), true),
                         SImm7Scaled(Imm7At(Imm7(w)), if is64 then 8 else 4), index.value))
  }

  function DecodeFpDataProc1(w: bv32): (r: Option<Inst>)
    ensures r.Some? ==> r.value.FpDataProc1? || r.value.FpConvert?
  {
    var double := IsSet(N22(w));
    if Opcode15(w) == 5 && !double then Some(FpConvert(FpRegAt(Rd(w), true), FpRegAt(Rn(w), false)))
    else if Opcode15(w) == 4 && double then Some(FpConvert(FpRegAt(Rd(w), false), FpRegAt(Rn(w), true)))
    else
      var op := FpUnaryOpcodeAt(Opcode15(w));
      if op.None? then None else Some(FpDataProc1(op.value, FpRegAt(Rd(w), double), FpRegAt(Rn(w), double)))
  }

  function DecodeFpDataProc2(w: bv32): (r: Option<Inst>)
    ensures r.Some? ==> r.value.FpDataProc2?
  {
    var op, double := FpBinOpcodeAt(Cond12(w)), IsSet(N22(w));
    if op.None? then None
    else Some(FpDataProc2(op.value, FpRegAt(Rd(w), double), FpRegAt(Rn(w), double), FpRegAt(Rm(w), double)))
  }

  function DecodeFpCondSelect(w: bv32): (r: Option<Inst>)
    ensures r.Some? ==> r.value.FpCondSelect?
  {
    var double := IsSet(N22(w));
    Some(FpCondSelect(FpRegAt(Rd(w), double), FpRegAt(Rn(w), double), FpRegAt(Rm(w), double), CondAt(Cond12(w))))
  }

  function DecodeFpInt(w: bv32): (r: Option<Inst>)
    ensures r.Some? ==> r.value.FpToGp? || r.value.GpToFp? || r.value.FpIntConvert?
  {
    var is64, double := IsSet(Sf(w)), IsSet(N22(w));
    if Rmode(w) == 0 && Opcode16(w) == 6 then
      if is64 == double then Some(FpToGp(RegAt(Rd(w), is64), FpRegAt(Rn(w), double))) else None
    else if Rmode(w) == 0 && Opcode16(w) == 7 then
      if is64 == double then Some(GpToFp(FpRegAt(Rd(w), double), RegAt(Rn(w), is64))) else None
    else
      var op := FpIntConvertAt(Rmode(w), Opcode16(w));
      if op.None? then None
      else if op.value.Scvtf? || op.value.Ucvtf? then
        Some(FpIntConvert(op.value, RegAt(Rn(w), is64), FpRegAt(Rd(w), double)))
      else Some(FpIntConvert(op.value, RegAt(Rd(w), is64), FpRegAt(Rn(w), double)))
  }

  function DecodeFpMadd(w: bv32): (r: Option<Inst>)
    ensures r.Some? ==> r.value.FpMadd?
  {
    var double := IsSet(N22(w));
    Some(FpMadd(FpRegAt(Rd(w), double), FpRegAt(Rn(w), double), FpRegAt(Rm(w), double), FpRegAt(Ra(w), double)))
  }
}
