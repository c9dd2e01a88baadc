/** What the Arm Architecture Reference Manual (DDI 0487, sections C6.2 and C7.2) says of the
    instructions, apart from what the constructors check: how each place of a register reads number
    31, which operands go together, and which words are UNDEFINED. */
module Manual {
  import opened Wrappers
  import opened Fields
  import opened Operands
  import opened Instructions
  import opened Layouts
  import opened Encoder
  import Bitmask

  // ---- Register number 31 ----

  /** Number 31 is the zero register in most places, and the stack pointer in a few. */
  datatype Place = Zero | Stack

  datatype Operand = Operand(reg: Reg, place: Place)

  function Target(setFlags: bool): Place {
    if setFlags then Zero else Stack
  }

  function ModePlaces(mode: AddrMode): seq<Operand> {
    if mode.ByRegister? then [Operand(mode.ro.rm, Zero)] else []
  }

  /** The general-purpose registers of an instruction, each with its place. */
  function Places(i: Inst): seq<Operand> {
    match i
    case MovWide(_, rd, _, _) => [Operand(rd, Zero)]
    case AddSubImm(_, s, rd, rn, _, _) => [Operand(rd, Target(s)), Operand(rn, Stack)]
    case AddSubShiftedReg(_, _, rd, rn, rm, _, _) => [Operand(rd, Zero), Operand(rn, Zero), Operand(rm, Zero)]
    case AddSubExtendedReg(_, s, rd, rn, rm, _, _) => [Operand(rd, Target(s)), Operand(rn, Stack), Operand(rm, Zero)]
    case LogicalImmInst(op, rd, rn, _, _) => [Operand(rd, Target(op.AndsImm?)), Operand(rn, Zero)]
    case LogicalShiftedReg(_, rd, rn, rm, _, _) => [Operand(rd, Zero), Operand(rn, Zero), Operand(rm, Zero)]
    case Bitfield(_, rd, rn, _, _, _) => [Operand(rd, Zero), Operand(rn, Zero)]
    case DataProc2Source(_, rd, rn, rm) => [Operand(rd, Zero), Operand(rn, Zero), Operand(rm, Zero)]
    case DataProc3Source(_, rd, rn, rm, ra, _) =>
      [Operand(rd, Zero), Operand(rn, Zero), Operand(rm, Zero), Operand(ra, Zero)]
    case DataProc1Source(_, rd, rn) => [Operand(rd, Zero), Operand(rn, Zero)]
    case CondSelect(_, rd, rn, rm, _, _) => [Operand(rd, Zero), Operand(rn, Zero), Operand(rm, Zero)]
    case Adr(rd, _) => [Operand(rd, Zero)]
    case Adrp(rd, _) => [Operand(rd, Zero)]
    case CompareBranch(_, _, rt, _) => [Operand(rt, Zero)]
    case TestBranch(_, rt, _, _) => [Operand(rt, Zero)]
    case BranchReg(rn) => [Operand(rn, Zero)]
    case BranchLinkReg(rn) => [Operand(rn, Zero)]
    case Ret(rn) => [Operand(rn, Zero)]
    case LoadStoreImm(_, rt, rn, mode) => [Operand(rt, Zero), Operand(rn, Stack)] + ModePlaces(mode)
    case LoadStorePair(_, _, rt1, rt2, rn, _, _) => [Operand(rt1, Zero), Operand(rt2, Zero), Operand(rn, Stack)]
    case FpLoadStoreImm(_, _, rn, mode) => [Operand(rn, Stack)] + ModePlaces(mode)
    case FpToGp(rd, _) => [Operand(rd, Zero)]
    case GpToFp(_, rn) => [Operand(rn, Zero)]
    case FpIntConvert(_, gp, _) => [Operand(gp, Zero)]
    case _ => []
  }

  predicate ReadAsMeant(o: Operand) {
    o.reg.num == 31 ==> o.reg.sp == o.place.Stack?
  }

  /** Every operand numbered 31 is the register its place reads. */
  predicate RegistersMeant(i: Inst) {
    forall k | 0 <= k < |Places(i)| :: ReadAsMeant(Places(i)[k])
  }

  /** The register a place reads. */
  function At(r: Reg, p: Place): Reg {
    r.(sp := r.num == 31 && p.Stack?)
  }

  function ModeAt(mode: AddrMode): AddrMode {
    match mode
    case ByRegister(ro) => ByRegister(RegOffset(At(ro.rm, Zero), ro.extend, ro.shifted))
    case _ => mode
  }

  /** A decoded instruction with the registers the machine takes. */
  function AsRead(i: Inst): Inst {
    match i
    case MovWide(op, rd, imm16, shift) => MovWide(op, At(rd, Zero), imm16, shift)
    case AddSubImm(op, s, rd, rn, imm, a) => AddSubImm(op, s, At(rd, Target(s)), At(rn, Stack), imm, a)
    case AddSubShiftedReg(op, s, rd, rn, rm, shift, a) =>
      AddSubShiftedReg(op, s, At(rd, Zero), At(rn, Zero), At(rm, Zero), shift, a)
    case AddSubExtendedReg(op, s, rd, rn, rm, extend, a) =>
      AddSubExtendedReg(op, s, At(rd, Target(s)), At(rn, Stack), At(rm, Zero), extend, a)
    case LogicalImmInst(op, rd, rn, imm, a) => LogicalImmInst(op, At(rd, Target(op.AndsImm?)), At(rn, Zero), imm, a)
    case LogicalShiftedReg(op, rd, rn, rm, shift, a) =>
      LogicalShiftedReg(op, At(rd, Zero), At(rn, Zero), At(rm, Zero), shift, a)
    case Bitfield(op, rd, rn, immr, imms, a) => Bitfield(op, At(rd, Zero), At(rn, Zero), immr, imms, a)
    case DataProc2Source(op, rd, rn, rm) => DataProc2Source(op, At(rd, Zero), At(rn, Zero), At(rm, Zero))
    case DataProc3Source(op, rd, rn, rm, ra, isMul) =>
      DataProc3Source(op, At(rd, Zero), At(rn, Zero), At(rm, Zero), At(ra, Zero), isMul)
    case DataProc1Source(op, rd, rn) => DataProc1Source(op, At(rd, Zero), At(rn, Zero))
    case CondSelect(op, rd, rn, rm, cond, a) => CondSelect(op, At(rd, Zero), At(rn, Zero), At(rm, Zero), cond, a)
    case Adr(rd, adr) => Adr(At(rd, Zero), adr)
    case Adrp(rd, adr) => Adrp(At(rd, Zero), adr)
    case CompareBranch(is64, nz, rt, o) => CompareBranch(is64, nz, At(rt, Zero), o)
    case TestBranch(nz, rt, bit, o) => TestBranch(nz, At(rt, Zero), bit, o)
    case BranchReg(rn) => BranchReg(At(rn, Zero))
    case BranchLinkReg(rn) => BranchLinkReg(At(rn, Zero))
    case Ret(rn) => Ret(At(rn, Zero))
    case LoadStoreImm(op, rt, rn, mode) => LoadStoreImm(op, At(rt, Zero), At(rn, Stack), ModeAt(mode))
    case LoadStorePair(l, is64, rt1, rt2, rn, imm, index) =>
      LoadStorePair(l, is64, At(rt1, Zero), At(rt2, Zero), At(rn, Stack), imm, index)
    case FpLoadStoreImm(l, ft, rn, mode) => FpLoadStoreImm(l, ft, At(rn, Stack), ModeAt(mode))
    case FpToGp(rd, fn) => FpToGp(At(rd, Zero), fn)
    case GpToFp(fd, rn) => GpToFp(fd, At(rn, Zero))
    case FpIntConvert(op, gp, fp) => FpIntConvert(op, At(gp, Zero), fp)
    case _ => i
  }

  // ---- Legal operands ----

  /** What the constructors of the operands and of the multiplications fix by themselves. */
  predicate WellMade(i: Inst) {
    match i
    case LogicalImmInst(_, _, _, imm, _) => LogicalValue(imm).Some?
    case DataProc3Source(op, rd, _, _, ra, isMul) =>
      && (op.Smulh? || op.Umulh? ==> ra == Zr(true) && !isMul)
      && (isMul ==> op.Madd? && ra == Zr(rd.is64))
    case Adr(_, adr) => adr.InRange()
    case Adrp(_, adr) => adr.InRange()
    case Branch(_, offset) => offset.InRange()
    case BranchCond(_, offset) => offset.InRange()
    case CompareBranch(is64, _, rt, offset) => is64 == rt.is64 && offset.InRange()
    case TestBranch(_, _, _, offset) => offset.InRange()
    case LoadStoreImm(_, _, _, mode) => ModeOk(mode)
    case LoadStorePair(_, is64, rt1, _, _, imm, _) => is64 == rt1.is64 && imm.accessSize > 0
    case FpLoadStoreImm(_, _, _, mode) => ModeOk(mode)
    case _ => true
  }

  predicate FromX(kind: ExtendKind) {
    kind.Uxtx? || kind.Sxtx?
  }

  /** The operands have the widths some form of the instruction has. In a 32-bit extended ADD or SUB
      every second operand is a 32-bit register. */
  predicate WidthsLegal(i: Inst) {
    match i
    case AddSubImm(_, _, rd, rn, _, _) => SameWidth(rd, rn)
    case AddSubShiftedReg(_, _, rd, rn, rm, _, _) => SameWidth(rd, rn) && SameWidth(rd, rm)
    case AddSubExtendedReg(_, _, rd, rn, rm, extend, _) => SameWidth(rd, rn) && rm.is64 == (rd.is64 && FromX(extend.kind))
    case LogicalImmInst(_, rd, rn, imm, _) => SameWidth(rd, rn) && rd.is64 == imm.is64
    case LogicalShiftedReg(_, rd, rn, rm, _, _) => SameWidth(rd, rn) && SameWidth(rd, rm)
    case Bitfield(_, rd, rn, _, _, _) => SameWidth(rd, rn)
    case DataProc2Source(_, rd, rn, rm) => SameWidth(rd, rn) && SameWidth(rd, rm)
    case DataProc3Source(op, rd, rn, rm, ra, _) =>
      SameWidth(rd, rn) && SameWidth(rd, rm) && SameWidth(rd, ra) && (op.Smulh? || op.Umulh? ==> rd.is64)
    case DataProc1Source(_, rd, rn) => SameWidth(rd, rn)
    case CondSelect(_, rd, rn, rm, _, _) => SameWidth(rd, rn) && SameWidth(rd, rm)
    case Adr(rd, _) => rd.is64
    case Adrp(rd, _) => rd.is64
    case BranchReg(rn) => rn.is64
    case BranchLinkReg(rn) => rn.is64
    case Ret(rn) => rn.is64
    case LoadStoreImm(op, rt, rn, _) => rt.is64 == RtIs64(op) && rn.is64
    case LoadStorePair(_, _, rt1, rt2, rn, _, _) => SameWidth(rt1, rt2) && rn.is64
    case FpLoadStoreImm(_, _, rn, _) => rn.is64
    case FpDataProc1(_, fd, fn) => fd.double == fn.double
    case FpConvert(fd, fn) => fd.double != fn.double
    case FpDataProc2(_, fd, fn, fm) => fd.double == fn.double == fm.double
    case FpCompare(fn, fm) => fn.double == fm.double
    case FpCondSelect(fd, fn, fm, _) => fd.double == fn.double == fm.double
    case FpImmMove(fd, imm) => fd.double == imm.is64
    case FpToGp(rd, fn) => rd.is64 == fn.double
    case GpToFp(fd, rn) => fd.double == rn.is64
    case FpMadd(fd, fn, fm, fa) => fd.double == fn.double == fm.double == fa.double
    case _ => true
  }

  /** Shifts, extends and bit numbers are ones the form has; no other form rotates or shifts as far. */
  predicate AmountsLegal(i: Inst) {
    match i
    case MovWide(_, rd, _, shift) => shift % 16 == 0 && shift < WidthOf(rd.is64)
    case AddSubShiftedReg(_, _, rd, _, _, shift, _) => !shift.kind.Ror? && shift.amount < WidthOf(rd.is64)
    case AddSubExtendedReg(_, _, _, _, _, extend, _) => extend.amount <= 4
    case LogicalShiftedReg(_, rd, _, _, shift, _) => shift.amount < WidthOf(rd.is64)
    case Bitfield(_, rd, _, immr, imms, _) => immr < WidthOf(rd.is64) && imms < WidthOf(rd.is64)
    case TestBranch(_, rt, bit, _) => bit < WidthOf(rt.is64)
    case _ => true
  }

  /** Number 31 of a transfer register and of a base are different registers. */
  predicate SameRegister(rt: Reg, rn: Reg) {
    rt.num == rn.num && rt.num != 31
  }

  /** Not CONSTRAINED UNPREDICTABLE: no write-back into a transferred register, and no register
      loaded twice. */
  predicate Predictable(i: Inst) {
    match i
    case LoadStoreImm(_, rt, rn, mode) => Writeback(mode) ==> !SameRegister(rt, rn)
    case LoadStorePair(isLoad, _, rt1, rt2, rn, _, index) =>
      && (!index.Offset? ==> !SameRegister(rt1, rn) && !SameRegister(rt2, rn))
      && (isLoad ==> rt1.num != rt2.num)
    case _ => true
  }

  predicate Legal(i: Inst) {
    WellMade(i) && WidthsLegal(i) && AmountsLegal(i) && Predictable(i) && RegistersMeant(i)
  }

  // ---- UNDEFINED words ----

  /** The decode pseudocode of the word's class ends in UNDEFINED, as that of UDF always does. */
  predicate Undefined(w: bv32) {
    var narrow := !IsSet(Sf(w));
    match ShapeOf(w)
    case SMovWide => narrow && Number2(Hw(w)) >= 2
    case SAddSubShifted => ShiftBitsAt(Shift22(w)) == Some(Ror) || (narrow && Number6(Imm6(w)) >= 32)
    case SAddSubExtended => Number3(Imm3(w)) > 4
    case SLogicalImm => Bitmask.Decode(Number1(N22(w)), Number6(Immr(w)), Number6(Imm6(w)), WidthOf(!narrow)).None?
    case SLogicalShifted => narrow && Number6(Imm6(w)) >= 32
    case SBitfield =>
      || BitfieldOpcAt(Opc29(w)).None? || IsSet(N22(w)) == narrow
      || (narrow && (Number6(Immr(w)) >= 32 || Number6(Imm6(w)) >= 32))
    case SUdf => true
    case _ => false
  }
}
