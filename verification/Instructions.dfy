/** The instructions (crates/fors-asm/src/inst.rs, crates/fors-asm/src/fp.rs): one variant per
    encoding shape, the checks every constructor makes, and the alias constructors. */
module Instructions {
  import opened Wrappers
  import opened Fields
  import opened Operands

  datatype MovWideOp = Movz | Movn | Movk

  datatype AddSubOp = Add | Sub

  datatype AddSubAlias = NoAddSubAlias | Cmp | Cmn | Neg | Negs | MovSp

  datatype LogicalShiftOp = And | Bic | Orr | Orn | Eor | Eon | Ands | Bics

  datatype LogicalImmOp = AndImm | OrrImm | EorImm | AndsImm

  datatype LogicalAlias = NoLogicalAlias | Mvn | Tst | MovReg

  datatype BitfieldOp = Sbfm | Bfm | Ubfm

  datatype BitfieldAlias = NoBitfieldAlias | LslImm | LsrImm | AsrImm | SxtbReg | SxthReg | SxtwReg | UxtbReg | UxthReg

  datatype DataProc2Op = Udiv | Sdiv | Lslv | Lsrv | Asrv | Rorv

  datatype DataProc3Op = Madd | Msub | Smulh | Umulh

  datatype DataProc1Op = Rbit | Clz | Rev

  datatype CondSelectOp = Csel | Csinc | Csinv | Csneg

  datatype CondSelectAlias = NoCondAlias | Cset | Csetm | Cinc | Cinv | Cneg

  datatype LdStOp =
    | StrB | LdrB | LdrSb(is64: bool) | StrH | LdrH | LdrSh(is64: bool) | StrW | LdrW | LdrSw | StrX | LdrX

  function AccessSize(op: LdStOp): nat {
    match op
    case StrB => 1
    case LdrB => 1
    case LdrSb(_) => 1
    case StrH => 2
    case LdrH => 2
    case LdrSh(_) => 2
    case StrW => 4
    case LdrW => 4
    case LdrSw => 4
    case StrX => 8
    case LdrX => 8
  }

  function RtIs64(op: LdStOp): bool {
    match op
    case LdrSb(is64) => is64
    case LdrSh(is64) => is64
    case LdrSw => true
    case StrX => true
    case LdrX => true
    case _ => false
  }

  datatype LdStExtend = ByUxtw | ByLsl | BySxtw | BySxtx

  function RmIs64(e: LdStExtend): bool {
    e == ByLsl || e == BySxtx
  }

  datatype RegOffset = RegOffset(rm: Reg, extend: LdStExtend, shifted: bool)

  function NewRegOffset(rm: Reg, extend: LdStExtend, shifted: bool): Result<RegOffset, EncodeError> {
    if rm.is64 != RmIs64(extend) then Err(RegisterWidthMismatch) else Ok(RegOffset(rm, extend, shifted))
  }

  datatype AddrMode =
    | UnsignedOffset(imm: UScaledImm12)
    | Unscaled(simm: Simm9)
    | PreIndex(simm: Simm9)
    | PostIndex(simm: Simm9)
    | ByRegister(ro: RegOffset)

  datatype PairIndex = Offset | PairPre | PairPost

  datatype SysOp = Nop | Brk(imm16: U16) | Svc(imm16: U16) | Udf(imm16: U16)

  datatype FpUnaryOp = Fmov | Fabs | Fneg | Fsqrt

  datatype FpBinOp = Fadd | Fsub | Fmul | Fdiv

  datatype FpIntConvertOp = Scvtf | Ucvtf | Fcvtzs | Fcvtzu

  /** The 8-bit float immediate and the width it was found for. */
  datatype FpImm8 = FpImm8(imm8: U8, is64: bool)

  datatype Inst =
    | MovWide(mop: MovWideOp, rd: Reg, imm16: U16, shift: U8)
    | AddSubImm(op: AddSubOp, setFlags: bool, rd: Reg, rn: Reg, imm12: Uimm12Lsl, addAlias: AddSubAlias)
    | AddSubShiftedReg(op: AddSubOp, setFlags: bool, rd: Reg, rn: Reg, rm: Reg, regShift: RegShift, addAlias: AddSubAlias)
    | AddSubExtendedReg(op: AddSubOp, setFlags: bool, rd: Reg, rn: Reg, rm: Reg, extend: RegExtend, addAlias: AddSubAlias)
    | LogicalImmInst(lop: LogicalImmOp, rd: Reg, rn: Reg, mask: LogicalImm, logAlias: LogicalAlias)
    | LogicalShiftedReg(sop: LogicalShiftOp, rd: Reg, rn: Reg, rm: Reg, regShift: RegShift, logAlias: LogicalAlias)
    | Bitfield(bop: BitfieldOp, rd: Reg, rn: Reg, immr: U6, imms: U6, bitAlias: BitfieldAlias)
    | DataProc2Source(op2: DataProc2Op, rd: Reg, rn: Reg, rm: Reg)
    | DataProc3Source(op3: DataProc3Op, rd: Reg, rn: Reg, rm: Reg, ra: Reg, isMulAlias: bool)
    | DataProc1Source(op1: DataProc1Op, rd: Reg, rn: Reg)
    | CondSelect(cop: CondSelectOp, rd: Reg, rn: Reg, rm: Reg, cond: Cond, condAlias: CondSelectAlias)
    | Adr(rd: Reg, adr: AdrOffset)
    | Adrp(rd: Reg, adr: AdrOffset)
    | Branch(link: bool, offset: BranchOffset)
    | BranchCond(cond: Cond, offset: BranchOffset)
    | CompareBranch(is64: bool, isNonzero: bool, rt: Reg, offset: BranchOffset)
    | TestBranch(isNonzero: bool, rt: Reg, bit: U6, offset: BranchOffset)
    | BranchReg(rn: Reg)
    | BranchLinkReg(rn: Reg)
    | Ret(rn: Reg)
    | LoadStoreImm(ldst: LdStOp, rt: Reg, rn: Reg, mode: AddrMode)
    | LoadStorePair(isLoad: bool, is64: bool, rt1: Reg, rt2: Reg, rn: Reg, imm7: SImm7Scaled, index: PairIndex)
    | FpLoadStoreImm(isLoad: bool, ft: FpReg, rn: Reg, mode: AddrMode)
    | System(sys: SysOp)
    | FpDataProc1(fop1: FpUnaryOp, fd: FpReg, fn: FpReg)
    | FpConvert(fd: FpReg, fn: FpReg)
    | FpDataProc2(fop2: FpBinOp, fd: FpReg, fn: FpReg, fm: FpReg)
    | FpCompare(fn: FpReg, fm: FpReg)
    | FpCondSelect(fd: FpReg, fn: FpReg, fm: FpReg, cond: Cond)
    | FpImmMove(fd: FpReg, fimm: FpImm8)
    | FpToGp(rd: Reg, fn: FpReg)
    | GpToFp(fd: FpReg, rn: Reg)
    | FpIntConvert(fiop: FpIntConvertOp, gp: Reg, fp: FpReg)
    | FpMadd(fd: FpReg, fn: FpReg, fm: FpReg, fa: FpReg)

  // ---- What the public constructors let through ----

  predicate SameWidth(a: Reg, b: Reg) {
    a.is64 == b.is64
  }

  predicate ModeOk(mode: AddrMode) {
    match mode
    case UnsignedOffset(imm) => imm.accessSize > 0
    case Unscaled(simm) => simm.InRange()
    case PreIndex(simm) => simm.InRange()
    case PostIndex(simm) => simm.InRange()
    case ByRegister(ro) => ro.rm.is64 == RmIs64(ro.extend)
  }

  predicate Writeback(mode: AddrMode) {
    mode.PreIndex? || mode.PostIndex?
  }

  /** An instruction as the constructors leave it. */
  predicate Constructed(i: Inst) {
    match i
    case MovWide(_, rd, _, shift) => shift % 16 == 0 && shift <= if rd.is64 then 48 else 16
    case AddSubImm(_, setFlags, rd, rn, _, _) =>
      SameWidth(rd, rn) && !rn.IsZr() && if setFlags then !rd.IsSp() else !rd.IsZr()
    case LogicalImmInst(op, rd, rn, imm, _) =>
      SameWidth(rd, rn) && rd.is64 == imm.is64 && !rn.IsSp() && (op.AndsImm? ==> !rd.IsSp())
    case Bitfield(_, rd, rn, immr, imms, _) =>
      && SameWidth(rd, rn) && !rd.IsSp() && !rn.IsSp()
      && immr < WidthOf(rd.is64) && imms < WidthOf(rd.is64)
    case Adr(rd, adr) => rd.is64 && adr.InRange()
    case Adrp(rd, adr) => rd.is64 && adr.InRange()
    case AddSubShiftedReg(_, _, rd, rn, rm, shift, _) =>
      && !shift.kind.Ror? && SameWidth(rd, rn) && SameWidth(rd, rm)
      && !rd.IsSp() && !rn.IsSp() && !rm.IsSp()
    case AddSubExtendedReg(_, _, rd, rn, rm, extend, _) =>
      && !rm.IsSp() && SameWidth(rd, rn) && rm.is64 == (extend.kind.Uxtx? || extend.kind.Sxtx?)
      && (rm.is64 ==> rd.is64) && extend.amount <= 4
    case LogicalShiftedReg(_, rd, rn, rm, _, _) =>
      SameWidth(rd, rn) && SameWidth(rd, rm) && !rd.IsSp() && !rn.IsSp() && !rm.IsSp()
    case DataProc2Source(_, rd, rn, rm) =>
      SameWidth(rd, rn) && SameWidth(rd, rm) && !rd.IsSp() && !rn.IsSp() && !rm.IsSp()
    case DataProc3Source(op, rd, rn, rm, ra, isMul) =>
      && SameWidth(rd, rn) && SameWidth(rd, rm) && SameWidth(rd, ra)
      && (if op.Smulh? || op.Umulh? then rd.is64 && ra == Zr(true) && !isMul
          else if isMul then op.Madd? && ra == Zr(rd.is64)
          else !rd.IsSp() && !rn.IsSp() && !rm.IsSp() && !ra.IsSp())
    case DataProc1Source(_, rd, rn) => SameWidth(rd, rn) && !rd.IsSp() && !rn.IsSp()
    case CondSelect(_, rd, rn, rm, _, _) =>
      SameWidth(rd, rn) && SameWidth(rd, rm) && !rd.IsSp() && !rn.IsSp() && !rm.IsSp()
    case Branch(_, offset) => offset.InRange()
    case BranchCond(_, offset) => offset.InRange()
    case CompareBranch(is64, _, rt, offset) => is64 == rt.is64 && offset.InRange()
    case TestBranch(_, rt, bit, offset) => bit < WidthOf(rt.is64) && offset.InRange()
    case BranchReg(rn) => rn.is64
    case BranchLinkReg(rn) => rn.is64
    case Ret(rn) => rn.is64
    case System(_) => true
    case LoadStoreImm(op, rt, rn, mode) =>
      && rt.is64 == RtIs64(op) && !rn.IsZr() && rn.is64 && ModeOk(mode)
      && (Writeback(mode) ==> rt.num != rn.num)
    case LoadStorePair(isLoad, is64, rt1, rt2, rn, imm, index) =>
      && SameWidth(rt1, rt2) && is64 == rt1.is64 && rn.is64 && imm.accessSize > 0
      && (!index.Offset? ==> rt1.num != rn.num && rt2.num != rn.num)
      && (isLoad ==> rt1.num != rt2.num)
    case FpLoadStoreImm(_, _, rn, mode) => rn.is64 && ModeOk(mode)
    case FpDataProc1(_, fd, fn) => fd.double == fn.double
    case FpConvert(fd, fn) => fd.double != fn.double
    case FpDataProc2(_, fd, fn, fm) => fd.double == fn.double == fm.double
    case FpCompare(fn, fm) => fn.double == fm.double
    case FpCondSelect(fd, fn, fm, _) => fd.double == fn.double == fm.double
    case FpImmMove(fd, imm) => fd.double == imm.is64
    case FpToGp(rd, fn) => rd.is64 == fn.double
    case GpToFp(fd, rn) => fd.double == rn.is64
    case FpIntConvert(_, _, _) => true
    case FpMadd(fd, fn, fm, fa) => fd.double == fn.double == fm.double == fa.double
  }

  // ---- The validating constructors ----

  type Built = Result<Inst, EncodeError>

  /** A constructor answers `Ok` with the instruction asked for exactly when it lets it through. */
  predicate Answers(r: Built, i: Inst) {
    (r.Ok? <==> Constructed(i)) && (r.Ok? ==> r.value == i)
  }

  function NewMovWide(op: MovWideOp, rd: Reg, imm16: U16, shift: U8): (r: Built)
    ensures Answers(r, MovWide(op, rd, imm16, shift))
  {
    if shift > (if rd.is64 then 48 else 16) || shift % 16 != 0 then Err(ImmediateOutOfRange)
    else Ok(MovWide(op, rd, imm16, shift))
  }

  /** Field 31 means SP in `rn`, and in `rd` unless the flags are set. */
  function AddSubImmCheck(setFlags: bool, rd: Reg, rn: Reg): Option<EncodeError> {
    if !SameWidth(rd, rn) then Some(RegisterWidthMismatch)
    else if rn.IsZr() then Some(InvalidRegisterForForm)
    else if setFlags then (if rd.IsSp() then Some(InvalidRegisterForForm) else None)
    else if rd.IsZr() then Some(InvalidRegisterForForm)
    else None
  }

  function NewAddSubImm(op: AddSubOp, setFlags: bool, rd: Reg, rn: Reg, imm: Uimm12Lsl, alias: AddSubAlias): (r: Built)
    ensures Answers(r, AddSubImm(op, setFlags, rd, rn, imm, alias))
  {
    var e := AddSubImmCheck(setFlags, rd, rn);
    if e.Some? then Err(e.value) else Ok(AddSubImm(op, setFlags, rd, rn, imm, alias))
  }

  function NewAddSubShifted(op: AddSubOp, setFlags: bool, rd: Reg, rn: Reg, rm: Reg, shift: RegShift, alias: AddSubAlias): (r: Built)
    ensures Answers(r, AddSubShiftedReg(op, setFlags, rd, rn, rm, shift, alias))
  {
    if shift.kind.Ror? then Err(InvalidShiftForForm)
    else if !SameWidth(rd, rn) || !SameWidth(rd, rm) then Err(RegisterWidthMismatch)
    else if rd.IsSp() || rn.IsSp() || rm.IsSp() then Err(InvalidRegisterForForm)
    else Ok(AddSubShiftedReg(op, setFlags, rd, rn, rm, shift, alias))
  }

  function NewAddSubExtended(op: AddSubOp, setFlags: bool, rd: Reg, rn: Reg, rm: Reg, extend: RegExtend, alias: AddSubAlias): (r: Built)
    requires extend.amount <= 4
    ensures Answers(r, AddSubExtendedReg(op, setFlags, rd, rn, rm, extend, alias))
  {
    var rmMustBe64 := extend.kind.Uxtx? || extend.kind.Sxtx?;
    if rm.IsSp() then Err(InvalidRegisterForForm)
    else if rd.is64 != rn.is64 then Err(RegisterWidthMismatch)
    else if rm.is64 != rmMustBe64 then Err(RegisterWidthMismatch)
    else if rmMustBe64 && !rd.is64 then Err(RegisterWidthMismatch)
    else Ok(AddSubExtendedReg(op, setFlags, rd, rn, rm, extend, alias))
  }

  function NewLogicalImmInst(op: LogicalImmOp, rd: Reg, rn: Reg, imm: LogicalImm, alias: LogicalAlias): (r: Built)
    ensures Answers(r, LogicalImmInst(op, rd, rn, imm, alias))
  {
    if !SameWidth(rd, rn) then Err(RegisterWidthMismatch)
    else if rd.is64 != imm.is64 then Err(RegisterWidthMismatch)
    else if rn.IsSp() then Err(InvalidRegisterForForm)
    else if op.AndsImm? && rd.IsSp() then Err(InvalidRegisterForForm)
    else Ok(LogicalImmInst(op, rd, rn, imm, alias))
  }

  function NewLogicalShifted(op: LogicalShiftOp, rd: Reg, rn: Reg, rm: Reg, shift: RegShift, alias: LogicalAlias): (r: Built)
    ensures Answers(r, LogicalShiftedReg(op, rd, rn, rm, shift, alias))
  {
    if !SameWidth(rd, rn) || !SameWidth(rd, rm) then Err(RegisterWidthMismatch)
    else if rd.IsSp() || rn.IsSp() || rm.IsSp() then Err(InvalidRegisterForForm)
    else Ok(LogicalShiftedReg(op, rd, rn, rm, shift, alias))
  }

  /** The fields arrive as bytes and are checked against the register width. */
  function NewBitfield(op: BitfieldOp, rd: Reg, rn: Reg, immr: U8, imms: U8, alias: BitfieldAlias): (r: Built)
    ensures r.Ok? <==> immr < 64 && imms < 64 && Constructed(Bitfield(op, rd, rn, immr, imms, alias))
    ensures r.Ok? ==> r.value == Bitfield(op, rd, rn, immr, imms, alias)
  {
    var max := WidthOf(rd.is64) - 1;
    if !SameWidth(rd, rn) then Err(RegisterWidthMismatch)
    else if immr > max then Err(ImmediateOutOfRange)
    else if imms > max then Err(ImmediateOutOfRange)
    else if rd.IsSp() || rn.IsSp() then Err(InvalidRegisterForForm)
    else Ok(Bitfield(op, rd, rn, immr, imms, alias))
  }

  function NewDataProc2(op: DataProc2Op, rd: Reg, rn: Reg, rm: Reg): (r: Built)
    ensures Answers(r, DataProc2Source(op, rd, rn, rm))
  {
    if !SameWidth(rd, rn) || !SameWidth(rd, rm) then Err(RegisterWidthMismatch)
    else if rd.IsSp() || rn.IsSp() || rm.IsSp() then Err(InvalidRegisterForForm)
    else Ok(DataProc2Source(op, rd, rn, rm))
  }

  function NewMaddMsub(sub: bool, rd: Reg, rn: Reg, rm: Reg, ra: Reg): (r: Built)
    ensures Answers(r, DataProc3Source(if sub then Msub else Madd, rd, rn, rm, ra, false))
  {
    if !SameWidth(rd, rn) || !SameWidth(rd, rm) || !SameWidth(rd, ra) then Err(RegisterWidthMismatch)
    else if rd.IsSp() || rn.IsSp() || rm.IsSp() || ra.IsSp() then Err(InvalidRegisterForForm)
    else Ok(DataProc3Source(if sub then Msub else Madd, rd, rn, rm, ra, false))
  }

  /** `MUL` does not look for SP. */
  function NewMul(rd: Reg, rn: Reg, rm: Reg): (r: Built)
    ensures Answers(r, DataProc3Source(Madd, rd, rn, rm, Zr(rd.is64), true))
  {
    if !SameWidth(rd, rn) || !SameWidth(rd, rm) then Err(RegisterWidthMismatch)
    else Ok(DataProc3Source(Madd, rd, rn, rm, Zr(rd.is64), true))
  }

  function NewMulh(unsigned: bool, rd: Reg, rn: Reg, rm: Reg): (r: Built)
    ensures Answers(r, DataProc3Source(if unsigned then Umulh else Smulh, rd, rn, rm, Zr(true), false))
  {
    if !rd.is64 || !rn.is64 || !rm.is64 then Err(RegisterWidthMismatch)
    else Ok(DataProc3Source(if unsigned then Umulh else Smulh, rd, rn, rm, Zr(true), false))
  }

  function NewDataProc1(op: DataProc1Op, rd: Reg, rn: Reg): (r: Built)
    ensures Answers(r, DataProc1Source(op, rd, rn))
  {
    if !SameWidth(rd, rn) then Err(RegisterWidthMismatch)
    else if rd.IsSp() || rn.IsSp() then Err(InvalidRegisterForForm)
    else Ok(DataProc1Source(op, rd, rn))
  }

  function NewCondSelect(op: CondSelectOp, rd: Reg, rn: Reg, rm: Reg, cond: Cond, alias: CondSelectAlias): (r: Built)
    ensures Answers(r, CondSelect(op, rd, rn, rm, cond, alias))
  {
    if !SameWidth(rd, rn) || !SameWidth(rd, rm) then Err(RegisterWidthMismatch)
    else if rd.IsSp() || rn.IsSp() || rm.IsSp() then Err(InvalidRegisterForForm)
    else Ok(CondSelect(op, rd, rn, rm, cond, alias))
  }

  function NewTestBranch(isNonzero: bool, rt: Reg, bit: U8, offset: BranchOffset): (r: Built)
    requires offset.InRange()
    ensures r.Ok? <==> bit < 64 && Constructed(TestBranch(isNonzero, rt, bit, offset))
    ensures r.Ok? ==> r.value == TestBranch(isNonzero, rt, bit, offset)
  {
    if bit > (if rt.is64 then 63 else 31) then Err(ImmediateOutOfRange)
    else Ok(TestBranch(isNonzero, rt, bit, offset))
  }

  function NewLoadStore(op: LdStOp, rt: Reg, rn: Reg, mode: AddrMode): (r: Built)
    requires ModeOk(mode)
    ensures Answers(r, LoadStoreImm(op, rt, rn, mode))
  {
    if rt.is64 != RtIs64(op) then Err(RegisterWidthMismatch)
    else if !rn.IsSp() && rn.IsZr() then Err(InvalidRegisterForForm)
    else if !rn.is64 then Err(RegisterWidthMismatch)
    else if Writeback(mode) && rt.num == rn.num then Err(InvalidRegisterForForm)
    else Ok(LoadStoreImm(op, rt, rn, mode))
  }

  function NewLoadStorePair(isLoad: bool, rt1: Reg, rt2: Reg, rn: Reg, imm: SImm7Scaled, index: PairIndex): (r: Built)
    requires imm.accessSize > 0
    ensures Answers(r, LoadStorePair(isLoad, rt1.is64, rt1, rt2, rn, imm, index))
  {
    if !SameWidth(rt1, rt2) then Err(RegisterWidthMismatch)
    else if !rn.is64 then Err(RegisterWidthMismatch)
    else if !index.Offset? && (rt1.num == rn.num || rt2.num == rn.num) then Err(InvalidRegisterForForm)
    else if isLoad && rt1.num == rt2.num then Err(InvalidRegisterForForm)
    else Ok(LoadStorePair(isLoad, rt1.is64, rt1, rt2, rn, imm, index))
  }

  // ---- Alias constructors ----

  /** `LSL` is `UBFM` with `-shift` modulo the width and `width - 1 - shift`. */
  function NewLsl(rd: Reg, rn: Reg, shift: U8): Built {
    var width := WidthOf(rd.is64);
    if shift >= width then Err(ImmediateOutOfRange)
    else NewBitfield(Ubfm, rd, rn, (width - shift) % width, width - 1 - shift, LslImm)
  }

  function NewLsr(rd: Reg, rn: Reg, shift: U8): Built {
    var width := WidthOf(rd.is64);
    if shift >= width then Err(ImmediateOutOfRange) else NewBitfield(Ubfm, rd, rn, shift, width - 1, LsrImm)
  }

  function NewAsr(rd: Reg, rn: Reg, shift: U8): Built {
    var width := WidthOf(rd.is64);
    if shift >= width then Err(ImmediateOutOfRange) else NewBitfield(Sbfm, rd, rn, shift, width - 1, AsrImm)
  }

  function NewSxtb(rd: Reg, rn: Reg): Built {
    NewBitfield(Sbfm, rd, rn, 0, 7, SxtbReg)
  }

  function NewSxth(rd: Reg, rn: Reg): Built {
    NewBitfield(Sbfm, rd, rn, 0, 15, SxthReg)
  }

  /** `Xd` from `Wn`, taken as the low half of `Xn`. */
  function NewSxtw(rd: Reg, rn: Reg): Built {
    if !rd.is64 || rn.is64 then Err(RegisterWidthMismatch)
    else NewBitfield(Sbfm, rd, rn.(is64 := true), 0, 31, SxtwReg)
  }

  function NewUxtb(rd: Reg, rn: Reg): Built {
    if rd.is64 || rn.is64 then Err(RegisterWidthMismatch) else NewBitfield(Ubfm, rd, rn, 0, 7, UxtbReg)
  }

  function NewUxth(rd: Reg, rn: Reg): Built {
    if rd.is64 || rn.is64 then Err(RegisterWidthMismatch) else NewBitfield(Ubfm, rd, rn, 0, 15, UxthReg)
  }

  predicate Conditional(cond: Cond) {
    cond != AL && cond != NV
  }

  function NewCset(rd: Reg, cond: Cond): Built {
    var z := Zr(rd.is64);
    if !Conditional(cond) then Err(InvalidShiftForForm) else NewCondSelect(Csinc, rd, z, z, Inverted(cond), Cset)
  }

  function NewCsetm(rd: Reg, cond: Cond): Built {
    var z := Zr(rd.is64);
    if !Conditional(cond) then Err(InvalidShiftForForm) else NewCondSelect(Csinv, rd, z, z, Inverted(cond), Csetm)
  }

  function NewCinc(rd: Reg, rn: Reg, cond: Cond): Built {
    if !Conditional(cond) then Err(InvalidShiftForForm) else NewCondSelect(Csinc, rd, rn, rn, Inverted(cond), Cinc)
  }

  function NewCinv(rd: Reg, rn: Reg, cond: Cond): Built {
    if !Conditional(cond) then Err(InvalidShiftForForm) else NewCondSelect(Csinv, rd, rn, rn, Inverted(cond), Cinv)
  }

  function NewCneg(rd: Reg, rn: Reg, cond: Cond): Built {
    if !Conditional(cond) then Err(InvalidShiftForForm) else NewCondSelect(Csneg, rd, rn, rn, Inverted(cond), Cneg)
  }
}
