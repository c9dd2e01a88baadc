/** Every instruction the constructors let through is read back from its word: no field overlaps
    another, and the two checks the encoder does not make are the only exceptions. */
module RoundTrip {
  import opened Wrappers
  import opened Fields
  import opened Operands
  import opened Instructions
  import opened Layouts
  import opened Encoder

  // ---- What a word says, shape by shape ----


  lemma MovWideDecoded(op: MovWideOp, rd: Reg, imm16: U16, shift: U8)
    requires shift % 16 == 0 && shift < 64
    ensures var w := MovWideWord(Bit(rd.is64), MovWideOpc(op), ToBits(shift / 16, 2), ToBits(imm16, 16), Num(rd));
            Decode(w) == Some(MovWide(op, Plain(rd), imm16, shift))
  {
    hide ToBits, FromBits, Fits, Bit, IsSet, ShapeOf, Num, RegAt, MovWideWord, Hw, Imm16, Opc29, Rd, Sf, MovWideOpc, MovWideOpcAt;
    BitBack(rd.is64);
    MovWideOpcBack(op);
    Back2(shift / 16);
    Back16(imm16);
    NumBack(rd);
    MovWideFields(Bit(rd.is64), MovWideOpc(op), ToBits(shift / 16, 2), ToBits(imm16, 16), Num(rd));
  }

  lemma AddSubImmDecoded(sub: bool, setFlags: bool, rd: Reg, rn: Reg, imm: Uimm12Lsl)
    requires SameWidth(rd, rn)
    ensures var w := AddSubImmWord(Bit(rd.is64), Bit(sub), Bit(setFlags), Bit(imm.shift12), RawBits(imm.raw), Num(rn), Num(rd));
            Decode(w) == Some(AddSubImm(if sub then Sub else Add, setFlags, Plain(rd), Plain(rn), imm, NoAddSubAlias))
  {
    hide ToBits, FromBits, Fits, Bit, IsSet, ShapeOf, Num, RegAt, AddSubImmWord, Imm12, N22, Op30, Rd, Rn, S29, Sf, RawBits, RawAt;
    BitBack(rd.is64);
    BitBack(sub);
    BitBack(setFlags);
    BitBack(imm.shift12);
    RawBack(imm.raw);
    NumBack(rn);
    NumBack(rd);
    AddSubImmFields(Bit(rd.is64), Bit(sub), Bit(setFlags), Bit(imm.shift12), RawBits(imm.raw), Num(rn), Num(rd));
  }

  lemma AddSubShiftedDecoded(sub: bool, setFlags: bool, rd: Reg, rn: Reg, rm: Reg, shift: RegShift)
    requires SameWidth(rd, rn) && SameWidth(rd, rm)
    ensures var w := AddSubShiftedWord(Bit(rd.is64), Bit(sub), Bit(setFlags), ShiftBits(shift.kind), Num(rm), ToBits(shift.amount, 6), Num(rn), Num(rd));
            Decode(w) == Some(AddSubShiftedReg(if sub then Sub else Add, setFlags, Plain(rd), Plain(rn), Plain(rm), shift, NoAddSubAlias))
  {
    hide ToBits, FromBits, Fits, Bit, IsSet, ShapeOf, Num, RegAt, AddSubShiftedWord, Imm6, Op30, Rd, Rm, Rn, S29, Sf, Shift22, ShiftBits, ShiftBitsAt;
    BitBack(rd.is64);
    BitBack(sub);
    BitBack(setFlags);
    ShiftBitsBack(shift.kind);
    Back6(shift.amount);
    NumBack(rm);
    NumBack(rn);
    NumBack(rd);
    AddSubShiftedFields(Bit(rd.is64), Bit(sub), Bit(setFlags), ShiftBits(shift.kind), Num(rm), ToBits(shift.amount, 6), Num(rn), Num(rd));
  }

  lemma AddSubExtendedDecoded(sub: bool, setFlags: bool, rd: Reg, rn: Reg, rm: Reg, extend: RegExtend)
    requires SameWidth(rd, rn) && rm.is64 == (extend.kind.Uxtx? || extend.kind.Sxtx?)
    ensures var w := AddSubExtendedWord(Bit(rd.is64), Bit(sub), Bit(setFlags), Num(rm), ExtendBits(extend.kind), ToBits(extend.amount, 3), Num(rn), Num(rd));
            Decode(w) == Some(AddSubExtendedReg(if sub then Sub else Add, setFlags, Plain(rd), Plain(rn), Plain(rm), extend, NoAddSubAlias))
  {
    hide ToBits, FromBits, Fits, Bit, IsSet, ShapeOf, Num, RegAt, AddSubExtendedWord, Ext13, Imm3, Op30, Rd, Rm, Rn, S29, Sf, ExtendBits, ExtendBitsAt;
    BitBack(rd.is64);
    BitBack(sub);
    BitBack(setFlags);
    ExtendBitsBack(extend.kind);
    Back3(extend.amount);
    NumBack(rm);
    NumBack(rn);
    NumBack(rd);
    AddSubExtendedFields(Bit(rd.is64), Bit(sub), Bit(setFlags), Num(rm), ExtendBits(extend.kind), ToBits(extend.amount, 3), Num(rn), Num(rd));
  }

  lemma LogicalImmDecoded(op: LogicalImmOp, rd: Reg, rn: Reg, imm: LogicalImm)
    requires SameWidth(rd, rn) && rd.is64 == imm.is64
    ensures var w := LogicalImmWord(Bit(rd.is64), LogicalImmOpc(op), ToBits(imm.n, 1), ToBits(imm.immr, 6), ToBits(imm.imms, 6), Num(rn), Num(rd));
            Decode(w) == Some(LogicalImmInst(op, Plain(rd), Plain(rn), imm, NoLogicalAlias))
  {
    hide ToBits, FromBits, Fits, Bit, IsSet, ShapeOf, Num, RegAt, LogicalImmWord, Imm6, Immr, N22, Opc29, Rd, Rn, Sf, LogicalImmOpc, LogicalImmOpcAt;
    BitBack(rd.is64);
    LogicalImmOpcBack(op);
    Back1(imm.n);
    Back6(imm.immr);
    Back6(imm.imms);
    NumBack(rn);
    NumBack(rd);
    LogicalImmFields(Bit(rd.is64), LogicalImmOpc(op), ToBits(imm.n, 1), ToBits(imm.immr, 6), ToBits(imm.imms, 6), Num(rn), Num(rd));
  }

  lemma LogicalShiftedDecoded(op: LogicalShiftOp, rd: Reg, rn: Reg, rm: Reg, shift: RegShift)
    requires SameWidth(rd, rn) && SameWidth(rd, rm)
    ensures var w := LogicalShiftedWord(Bit(rd.is64), LogicalShiftCodes(op).0, ShiftBits(shift.kind), LogicalShiftCodes(op).1, Num(rm), ToBits(shift.amount, 6),
                                    Num(rn), Num(rd));
            Decode(w) == Some(LogicalShiftedReg(op, Plain(rd), Plain(rn), Plain(rm), shift, NoLogicalAlias))
  {
    hide ToBits, FromBits, Fits, Bit, IsSet, ShapeOf, Num, RegAt, LogicalShiftedWord, Imm6, N21, Opc29, Rd, Rm, Rn, Sf, Shift22, LogicalShiftCodes, LogicalShiftAt, ShiftBits, ShiftBitsAt;
    BitBack(rd.is64);
    LogicalShiftBack(op);
    ShiftBitsBack(shift.kind);
    Back6(shift.amount);
    NumBack(rm);
    NumBack(rn);
    NumBack(rd);
    LogicalShiftedFields(Bit(rd.is64), LogicalShiftCodes(op).0, ShiftBits(shift.kind), LogicalShiftCodes(op).1, Num(rm), ToBits(shift.amount, 6),
                                    Num(rn), Num(rd));
  }

  lemma BitfieldDecoded(op: BitfieldOp, rd: Reg, rn: Reg, immr: U6, imms: U6)
    requires SameWidth(rd, rn)
    ensures var w := BitfieldWord(Bit(rd.is64), BitfieldOpc(op), Bit(rd.is64), ToBits(immr, 6), ToBits(imms, 6), Num(rn), Num(rd));
            Decode(w) == Some(Bitfield(op, Plain(rd), Plain(rn), immr, imms, NoBitfieldAlias))
  {
    hide ToBits, FromBits, Fits, Bit, IsSet, ShapeOf, Num, RegAt, BitfieldWord, Imm6, Immr, N22, Opc29, Rd, Rn, Sf, BitfieldOpc, BitfieldOpcAt;
    BitBack(rd.is64);
    BitfieldOpcBack(op);
    Back6(immr);
    Back6(imms);
    NumBack(rn);
    NumBack(rd);
    BitfieldFields(Bit(rd.is64), BitfieldOpc(op), Bit(rd.is64), ToBits(immr, 6), ToBits(imms, 6), Num(rn), Num(rd));
  }

  lemma DataProc2Decoded(op: DataProc2Op, rd: Reg, rn: Reg, rm: Reg)
    requires SameWidth(rd, rn) && SameWidth(rd, rm)
    ensures var w := DataProc2Word(Bit(rd.is64), Num(rm), DataProc2Opcode(op), Num(rn), Num(rd));
            Decode(w) == Some(DataProc2Source(op, Plain(rd), Plain(rn), Plain(rm)))
  {
    hide ToBits, FromBits, Fits, Bit, IsSet, ShapeOf, Num, RegAt, DataProc2Word, Imm6, Rd, Rm, Rn, Sf, DataProc2Opcode, DataProc2OpcodeAt;
    BitBack(rd.is64);
    DataProc2OpcodeBack(op);
    NumBack(rm);
    NumBack(rn);
    NumBack(rd);
    DataProc2Fields(Bit(rd.is64), Num(rm), DataProc2Opcode(op), Num(rn), Num(rd));
  }

  lemma DataProc3Decoded(op: DataProc3Op, rd: Reg, rn: Reg, rm: Reg, ra: Reg)
    requires SameWidth(rd, rn) && SameWidth(rd, rm) && SameWidth(rd, ra)
    ensures var w := DataProc3Word(Bit(rd.is64), DataProc3Codes(op).0, Num(rm), DataProc3Codes(op).1, Num(ra), Num(rn), Num(rd));
            Decode(w) == Some(DataProc3Source(op, Plain(rd), Plain(rn), Plain(rm), Plain(ra), false))
  {
    hide ToBits, FromBits, Fits, Bit, IsSet, ShapeOf, Num, RegAt, DataProc3Word, O15, Op31, Ra, Rd, Rm, Rn, Sf, DataProc3Codes, DataProc3At;
    BitBack(rd.is64);
    DataProc3Back(op);
    NumBack(rm);
    NumBack(ra);
    NumBack(rn);
    NumBack(rd);
    DataProc3Fields(Bit(rd.is64), DataProc3Codes(op).0, Num(rm), DataProc3Codes(op).1, Num(ra), Num(rn), Num(rd));
  }

  lemma DataProc1Decoded(op: DataProc1Op, rd: Reg, rn: Reg)
    requires SameWidth(rd, rn)
    ensures var w := DataProc1Word(Bit(rd.is64), DataProc1Opcode(op, rd.is64), Num(rn), Num(rd));
            Decode(w) == Some(DataProc1Source(op, Plain(rd), Plain(rn)))
  {
    hide ToBits, FromBits, Fits, Bit, IsSet, ShapeOf, Num, RegAt, DataProc1Word, Imm6, Rd, Rn, Sf, DataProc1Opcode, DataProc1At;
    BitBack(rd.is64);
    DataProc1Back(op, rd.is64);
    NumBack(rn);
    NumBack(rd);
    DataProc1Fields(Bit(rd.is64), DataProc1Opcode(op, rd.is64), Num(rn), Num(rd));
  }

  lemma CondSelectDecoded(op: CondSelectOp, rd: Reg, rn: Reg, rm: Reg, cond: Cond)
    requires SameWidth(rd, rn) && SameWidth(rd, rm)
    ensures var w := CondSelectWord(Bit(rd.is64), CondSelectCodes(op).0, Num(rm), CondBits(cond), CondSelectCodes(op).1, Num(rn), Num(rd));
            Decode(w) == Some(CondSelect(op, Plain(rd), Plain(rn), Plain(rm), cond, NoCondAlias))
  {
    hide ToBits, FromBits, Fits, Bit, IsSet, ShapeOf, Num, RegAt, CondSelectWord, Cond12, Op10, Op30, Rd, Rm, Rn, Sf, CondSelectCodes, CondSelectAt, CondBits, CondAt;
    BitBack(rd.is64);
    CondSelectBack(op);
    CondBack(cond);
    NumBack(rm);
    NumBack(rn);
    NumBack(rd);
    CondSelectFields(Bit(rd.is64), CondSelectCodes(op).0, Num(rm), CondBits(cond), CondSelectCodes(op).1, Num(rn), Num(rd));
  }

  lemma AdrDecoded(rd: Reg, adr: AdrOffset)
    requires rd.is64 && adr.InRange()
    ensures var w := AdrWord(adr.Encoding().0, adr.Encoding().1, Num(rd));
            Decode(w) == Some(Adr(Plain(rd), adr))
  {
    hide ToBits, FromBits, Fits, Bit, IsSet, ShapeOf, Num, RegAt, AdrWord, ImmLo, Off19, Rd, AdrAt, SignExtend;
    AdrBack(adr);
    NumBack(rd);
    AdrFields(adr.Encoding().0, adr.Encoding().1, Num(rd));
  }

  lemma AdrpDecoded(rd: Reg, adr: AdrOffset)
    requires rd.is64 && adr.InRange()
    ensures var w := AdrpWord(adr.Encoding().0, adr.Encoding().1, Num(rd));
            Decode(w) == Some(Adrp(Plain(rd), adr))
  {
    hide ToBits, FromBits, Fits, Bit, IsSet, ShapeOf, Num, RegAt, AdrpWord, ImmLo, Off19, Rd, AdrAt, SignExtend;
    AdrBack(adr);
    NumBack(rd);
    AdrpFields(adr.Encoding().0, adr.Encoding().1, Num(rd));
  }

  lemma BranchRegDecoded(rn: Reg)
    requires rn.is64
    ensures var w := BranchRegWord(Num(rn));
            Decode(w) == Some(BranchReg(Plain(rn)))
  {
    hide ToBits, FromBits, Fits, Bit, IsSet, ShapeOf, Num, RegAt, BranchRegWord, Rn;
    NumBack(rn);
    BranchRegFields(Num(rn));
  }

  lemma BranchLinkRegDecoded(rn: Reg)
    requires rn.is64
    ensures var w := BranchLinkRegWord(Num(rn));
            Decode(w) == Some(BranchLinkReg(Plain(rn)))
  {
    hide ToBits, FromBits, Fits, Bit, IsSet, ShapeOf, Num, RegAt, BranchLinkRegWord, Rn;
    NumBack(rn);
    BranchLinkRegFields(Num(rn));
  }

  lemma RetDecoded(rn: Reg)
    requires rn.is64
    ensures var w := RetWord(Num(rn));
            Decode(w) == Some(Ret(Plain(rn)))
  {
    hide ToBits, FromBits, Fits, Bit, IsSet, ShapeOf, Num, RegAt, RetWord, Rn;
    NumBack(rn);
    RetFields(Num(rn));
  }

  lemma BrkDecoded(imm16: U16)
    ensures var w := BrkWord(ToBits(imm16, 16));
            Decode(w) == Some(System(Brk(imm16)))
  {
    hide ToBits, FromBits, Fits, Bit, IsSet, ShapeOf, Num, RegAt, BrkWord, Imm16;
    Back16(imm16);
    BrkFields(ToBits(imm16, 16));
  }

  lemma SvcDecoded(imm16: U16)
    ensures var w := SvcWord(ToBits(imm16, 16));
            Decode(w) == Some(System(Svc(imm16)))
  {
    hide ToBits, FromBits, Fits, Bit, IsSet, ShapeOf, Num, RegAt, SvcWord, Imm16;
    Back16(imm16);
    SvcFields(ToBits(imm16, 16));
  }

  lemma UdfDecoded(imm16: U16)
    ensures var w := UdfWord(ToBits(imm16, 16));
            Decode(w) == Some(System(Udf(imm16)))
  {
    hide ToBits, FromBits, Fits, Bit, IsSet, ShapeOf, Num, RegAt, UdfWord, Low16;
    Back16(imm16);
    UdfFields(ToBits(imm16, 16));
  }

  lemma FpCompareDecoded(fn: FpReg, fm: FpReg)
    requires fn.double == fm.double
    ensures var w := FpCompareWord(Bit(fn.double), FpNum(fm), FpNum(fn));
            Decode(w) == Some(FpCompare(fn, fm))
  {
    hide ToBits, FromBits, Fits, Bit, IsSet, ShapeOf, Num, RegAt, FpCompareWord, N22, Rm, Rn, FpNum, FpRegAt;
    BitBack(fn.double);
    FpNumBack(fm);
    FpNumBack(fn);
    FpCompareFields(Bit(fn.double), FpNum(fm), FpNum(fn));
  }

  lemma FpDataProc1Decoded(op: FpUnaryOp, fd: FpReg, fn: FpReg)
    requires fd.double == fn.double
    ensures var w := FpDataProc1Word(Bit(fd.double), FpUnaryOpcode(op), FpNum(fn), FpNum(fd));
            Decode(w) == Some(FpDataProc1(op, fd, fn))
  {
    hide ToBits, FromBits, Fits, Bit, IsSet, ShapeOf, Num, RegAt, FpDataProc1Word, N22, Opcode15, Rd, Rn, FpNum, FpRegAt;
    BitBack(fd.double);
    FpUnaryOpcodeBack(op);
    FpNumBack(fn);
    FpNumBack(fd);
    FpDataProc1Fields(Bit(fd.double), FpUnaryOpcode(op), FpNum(fn), FpNum(fd));
  }

  lemma FpConvertDecoded(fd: FpReg, fn: FpReg)
    requires fd.double != fn.double
    ensures var w := FpDataProc1Word(Bit(!fd.double), if fd.double then 5 else 4, FpNum(fn), FpNum(fd));
            Decode(w) == Some(FpConvert(fd, fn))
  {
    hide ToBits, FromBits, Fits, Bit, IsSet, ShapeOf, Num, RegAt, FpDataProc1Word, N22, Opcode15, Rd, Rn, FpNum, FpRegAt;
    BitBack(!fd.double);
    FpNumBack(fn);
    FpNumBack(fd);
    FpDataProc1Fields(Bit(!fd.double), if fd.double then 5 else 4, FpNum(fn), FpNum(fd));
  }

  lemma FpDataProc2Decoded(op: FpBinOp, fd: FpReg, fn: FpReg, fm: FpReg)
    requires fd.double == fn.double == fm.double
    ensures var w := FpDataProc2Word(Bit(fd.double), FpNum(fm), FpBinOpcode(op), FpNum(fn), FpNum(fd));
            Decode(w) == Some(FpDataProc2(op, fd, fn, fm))
  {
    hide ToBits, FromBits, Fits, Bit, IsSet, ShapeOf, Num, RegAt, FpDataProc2Word, Cond12, N22, Rd, Rm, Rn, FpNum, FpRegAt, FpBinOpcode, FpBinOpcodeAt;
    BitBack(fd.double);
    FpBinOpcodeBack(op);
    FpNumBack(fm);
    FpNumBack(fn);
    FpNumBack(fd);
    FpDataProc2Fields(Bit(fd.double), FpNum(fm), FpBinOpcode(op), FpNum(fn), FpNum(fd));
  }

  lemma FpCondSelectDecoded(fd: FpReg, fn: FpReg, fm: FpReg, cond: Cond)
    requires fd.double == fn.double == fm.double
    ensures var w := FpCondSelectWord(Bit(fd.double), FpNum(fm), CondBits(cond), FpNum(fn), FpNum(fd));
            Decode(w) == Some(FpCondSelect(fd, fn, fm, cond))
  {
    hide ToBits, FromBits, Fits, Bit, IsSet, ShapeOf, Num, RegAt, FpCondSelectWord, Cond12, N22, Rd, Rm, Rn, FpNum, FpRegAt, CondBits, CondAt;
    BitBack(fd.double);
    CondBack(cond);
    FpNumBack(fm);
    FpNumBack(fn);
    FpNumBack(fd);
    FpCondSelectFields(Bit(fd.double), FpNum(fm), CondBits(cond), FpNum(fn), FpNum(fd));
  }

  lemma FpImmMoveDecoded(fd: FpReg, imm: FpImm8)
    requires fd.double == imm.is64
    ensures var w := FpImmMoveWord(Bit(fd.double), ToBits(imm.imm8, 8), FpNum(fd));
            Decode(w) == Some(FpImmMove(fd, imm))
  {
    hide ToBits, FromBits, Fits, Bit, IsSet, ShapeOf, Num, RegAt, FpImmMoveWord, Imm8, N22, Rd, FpNum, FpRegAt;
    BitBack(fd.double);
    Back8(imm.imm8);
    FpNumBack(fd);
    FpImmMoveFields(Bit(fd.double), ToBits(imm.imm8, 8), FpNum(fd));
  }

  lemma FpToGpDecoded(rd: Reg, fn: FpReg)
    requires rd.is64 == fn.double
    ensures var w := FpIntWord(Bit(rd.is64), Bit(fn.double), 0, 6, FpNum(fn), Num(rd));
            Decode(w) == Some(FpToGp(Plain(rd), fn))
  {
    hide ToBits, FromBits, Fits, Bit, IsSet, ShapeOf, Num, RegAt, FpIntWord, N22, Opcode16, Rd, Rmode, Rn, Sf, FpNum, FpRegAt;
    BitBack(rd.is64);
    FpNumBack(fn);
    NumBack(rd);
    FpIntFields(Bit(rd.is64), Bit(fn.double), 0, 6, FpNum(fn), Num(rd));
  }

  lemma GpToFpDecoded(fd: FpReg, rn: Reg)
    requires fd.double == rn.is64
    ensures var w := FpIntWord(Bit(rn.is64), Bit(fd.double), 0, 7, Num(rn), FpNum(fd));
            Decode(w) == Some(GpToFp(fd, Plain(rn)))
  {
    hide ToBits, FromBits, Fits, Bit, IsSet, ShapeOf, Num, RegAt, FpIntWord, N22, Opcode16, Rd, Rmode, Rn, Sf, FpNum, FpRegAt;
    BitBack(rn.is64);
    FpNumBack(fd);
    NumBack(rn);
    FpIntFields(Bit(rn.is64), Bit(fd.double), 0, 7, Num(rn), FpNum(fd));
  }

  lemma IntToFpDecoded(op: FpIntConvertOp, gp: Reg, fp: FpReg)
    requires op.Scvtf? || op.Ucvtf?
    ensures var w := FpIntWord(Bit(gp.is64), Bit(fp.double), FpIntConvertCodes(op).0, FpIntConvertCodes(op).1, Num(gp), FpNum(fp));
            Decode(w) == Some(FpIntConvert(op, Plain(gp), fp))
  {
    hide ToBits, FromBits, Fits, Bit, IsSet, ShapeOf, Num, RegAt, FpIntWord, N22, Opcode16, Rd, Rmode, Rn, Sf, FpNum, FpRegAt, FpIntConvertAt;
    BitBack(gp.is64);
    BitBack(fp.double);
    FpIntConvertBack(op);
    FpNumBack(fp);
    NumBack(gp);
    FpIntFields(Bit(gp.is64), Bit(fp.double), FpIntConvertCodes(op).0, FpIntConvertCodes(op).1, Num(gp), FpNum(fp));
  }

  lemma FpToIntDecoded(op: FpIntConvertOp, gp: Reg, fp: FpReg)
    requires op.Fcvtzs? || op.Fcvtzu?
    ensures var w := FpIntWord(Bit(gp.is64), Bit(fp.double), FpIntConvertCodes(op).0, FpIntConvertCodes(op).1, FpNum(fp), Num(gp));
            Decode(w) == Some(FpIntConvert(op, Plain(gp), fp))
  {
    hide ToBits, FromBits, Fits, Bit, IsSet, ShapeOf, Num, RegAt, FpIntWord, N22, Opcode16, Rd, Rmode, Rn, Sf, FpNum, FpRegAt, FpIntConvertAt;
    BitBack(gp.is64);
    BitBack(fp.double);
    FpIntConvertBack(op);
    FpNumBack(fp);
    NumBack(gp);
    FpIntFields(Bit(gp.is64), Bit(fp.double), FpIntConvertCodes(op).0, FpIntConvertCodes(op).1, FpNum(fp), Num(gp));
  }

  lemma FpMaddDecoded(fd: FpReg, fn: FpReg, fm: FpReg, fa: FpReg)
    requires fd.double == fn.double == fm.double == fa.double
    ensures var w := FpMaddWord(Bit(fd.double), FpNum(fm), FpNum(fa), FpNum(fn), FpNum(fd));
            Decode(w) == Some(FpMadd(fd, fn, fm, fa))
  {
    hide ToBits, FromBits, Fits, Bit, IsSet, ShapeOf, Num, RegAt, FpMaddWord, N22, Ra, Rd, Rm, Rn, FpNum, FpRegAt;
    BitBack(fd.double);
    FpNumBack(fm);
    FpNumBack(fa);
    FpNumBack(fn);
    FpNumBack(fd);
    FpMaddFields(Bit(fd.double), FpNum(fm), FpNum(fa), FpNum(fn), FpNum(fd));
  }

  // ---- Loads and stores ----

  /** What is read of an addressing mode: the access size is the word's own. */
  function DecodedMode(mode: AddrMode, size: bv32): AddrMode {
    match mode
    case UnsignedOffset(imm) => UnsignedOffset(UScaledImm12(imm.scaled, SizeInBytes(size)))
    case ByRegister(ro) => ByRegister(ro.(rm := Plain(ro.rm)))
    case _ => mode
  }

  predicate LoadStoreFields(w: bv32, size: bv32, v: bv32, opc: bv32, rt: bv32, rn: bv32) {
    Size(w) == size && V(w) == v && Shift22(w) == opc && Rd(w) == rt && Rn(w) == rn
  }

  lemma ScaledDecoded(size: bv32, v: bv32, opc: bv32, rt: bv32, rn: bv32, imm: UScaledImm12)
    requires Fits(size, 3) && Fits(v, 1) && Fits(opc, 3) && Fits(rt, 0x1F) && Fits(rn, 0x1F)
    ensures var w := LoadStoreScaledWord(size, v, opc, ToBits(imm.scaled, 12), rn, rt);
            && ShapeOf(w) == SLoadStoreScaled && LoadStoreFields(w, size, v, opc, rt, rn)
            && DecodeLoadStoreScaled(w) == DecodeLoadStore(w, UnsignedOffset(UScaledImm12(imm.scaled, SizeInBytes(size))))
  {
    hide ToBits, FromBits, Fits, ShapeOf, LoadStoreScaledWord, Size, V, Shift22, Imm12, Rn, Rd, DecodeLoadStore, SizeInBytes;
    Back12(imm.scaled);
    LoadStoreScaledFields(size, v, opc, ToBits(imm.scaled, 12), rn, rt);
  }

  lemma Simm9Decoded(size: bv32, v: bv32, opc: bv32, rt: bv32, rn: bv32, simm: Simm9, idx: bv32)
    requires Fits(size, 3) && Fits(v, 1) && Fits(opc, 3) && Fits(rt, 0x1F) && Fits(rn, 0x1F) && Fits(idx, 3)
    requires simm.InRange()
    ensures var w := LoadStoreSimm9Word(size, v, opc, simm.Encoding(), idx, rn, rt);
            && ShapeOf(w) == SLoadStoreSimm9 && LoadStoreFields(w, size, v, opc, rt, rn)
            && SimmAt(Imm9(w)) == simm && Op10(w) == idx
  {
    hide ToBits, FromBits, Fits, ShapeOf, LoadStoreSimm9Word, Size, V, Shift22, Imm9, Op10, Rn, Rd, SimmAt, SignExtend;
    SimmBack(simm);
    LoadStoreSimm9Fields(size, v, opc, simm.Encoding(), idx, rn, rt);
  }

  lemma RegisterDecoded(size: bv32, v: bv32, opc: bv32, rt: bv32, rn: bv32, ro: RegOffset)
    requires Fits(size, 3) && Fits(v, 1) && Fits(opc, 3) && Fits(rt, 0x1F) && Fits(rn, 0x1F)
    requires ro.rm.is64 == RmIs64(ro.extend)
    ensures var w := LoadStoreRegWord(size, v, opc, Num(ro.rm), OptionBits(ro.extend), Bit(ro.shifted), rn, rt);
            && ShapeOf(w) == SLoadStoreReg && LoadStoreFields(w, size, v, opc, rt, rn)
            && DecodeLoadStoreReg(w) == DecodeLoadStore(w, ByRegister(ro.(rm := Plain(ro.rm))))
  {
    hide ToBits, FromBits, Fits, Bit, IsSet, ShapeOf, Num, RegAt, LoadStoreRegWord, Size, V, Shift22, Rm, Ext13, S12, Rn, Rd,
      OptionBits, OptionBitsAt, DecodeLoadStore;
    NumBack(ro.rm);
    OptionBitsBack(ro.extend);
    BitBack(ro.shifted);
    LoadStoreRegFields(size, v, opc, Num(ro.rm), OptionBits(ro.extend), Bit(ro.shifted), rn, rt);
  }

  lemma SmallFits()
    ensures Fits(0, 3) && Fits(1, 3) && Fits(2, 3) && Fits(3, 3) && Fits(0, 1) && Fits(1, 1)
  {
  }

  predicate ModeReads(size: bv32, v: bv32, opc: bv32, rt: bv32, rn: bv32, mode: AddrMode) {
    var w := EncodeLoadStore(size, v, opc, rt, rn, mode);
    LoadStoreFields(w, size, v, opc, rt, rn) && Decode(w) == DecodeLoadStore(w, DecodedMode(mode, size))
  }

  lemma ScaledModeDecoded(size: bv32, v: bv32, opc: bv32, rt: bv32, rn: bv32, mode: AddrMode)
    requires Fits(size, 3) && Fits(v, 1) && Fits(opc, 3) && Fits(rt, 0x1F) && Fits(rn, 0x1F) && mode.UnsignedOffset?
    ensures ModeReads(size, v, opc, rt, rn, mode)
  {
    hide ToBits, FromBits, Fits, ShapeOf, LoadStoreScaledWord, LoadStoreFields, DecodeLoadStore, DecodeLoadStoreScaled, SizeInBytes;
    ScaledDecoded(size, v, opc, rt, rn, mode.imm);
  }

  lemma RegisterModeDecoded(size: bv32, v: bv32, opc: bv32, rt: bv32, rn: bv32, mode: AddrMode)
    requires Fits(size, 3) && Fits(v, 1) && Fits(opc, 3) && Fits(rt, 0x1F) && Fits(rn, 0x1F) && ModeOk(mode)
    requires mode.ByRegister?
    ensures ModeReads(size, v, opc, rt, rn, mode)
  {
    hide ToBits, FromBits, Fits, Bit, ShapeOf, Num, LoadStoreRegWord, LoadStoreFields, OptionBits, DecodeLoadStore, DecodeLoadStoreReg;
    RegisterDecoded(size, v, opc, rt, rn, mode.ro);
  }

  lemma SimmModeDecoded(size: bv32, v: bv32, opc: bv32, rt: bv32, rn: bv32, mode: AddrMode)
    requires Fits(size, 3) && Fits(v, 1) && Fits(opc, 3) && Fits(rt, 0x1F) && Fits(rn, 0x1F) && ModeOk(mode)
    requires mode.Unscaled? || mode.PreIndex? || mode.PostIndex?
    ensures ModeReads(size, v, opc, rt, rn, mode)
  {
    SmallFits();
    hide Fits, ShapeOf, LoadStoreSimm9Word, LoadStoreFields, DecodeLoadStore, SimmAt, Imm9, Op10, SignExtend;
    match mode {
      case Unscaled(simm) => Simm9Decoded(size, v, opc, rt, rn, simm, 0);
      case PostIndex(simm) => Simm9Decoded(size, v, opc, rt, rn, simm, 1);
      case PreIndex(simm) => Simm9Decoded(size, v, opc, rt, rn, simm, 3);
    }
  }

  /** Every addressing mode is told apart and read back. */
  lemma ModeDecoded(size: bv32, v: bv32, opc: bv32, rt: bv32, rn: bv32, mode: AddrMode)
    requires Fits(size, 3) && Fits(v, 1) && Fits(opc, 3) && Fits(rt, 0x1F) && Fits(rn, 0x1F) && ModeOk(mode)
    ensures ModeReads(size, v, opc, rt, rn, mode)
  {
    hide ModeReads, Fits, ModeOk;
    if mode.UnsignedOffset? {
      ScaledModeDecoded(size, v, opc, rt, rn, mode);
    } else if mode.ByRegister? {
      RegisterModeDecoded(size, v, opc, rt, rn, mode);
    } else {
      SimmModeDecoded(size, v, opc, rt, rn, mode);
    }
  }

  lemma GpDecoded(op: LdStOp, rt: Reg, rn: Reg, mode: AddrMode, w: bv32)
    requires rt.is64 == RtIs64(op) && rn.is64
    requires LoadStoreFields(w, LdStCodes(op).0, 0, LdStCodes(op).1, Num(rt), Num(rn))
    ensures DecodeLoadStore(w, mode) == Some(LoadStoreImm(op, Plain(rt), Plain(rn), mode))
  {
    hide ToBits, FromBits, Fits, Num, RegAt, Size, V, Shift22, Rd, Rn, LdStCodes, LdStAt;
    LdStBack(op);
    NumBack(rt);
    NumBack(rn);
  }

  lemma FpDecoded(isLoad: bool, ft: FpReg, rn: Reg, mode: AddrMode, w: bv32)
    requires rn.is64
    requires LoadStoreFields(w, FpSize(ft.double), 1, Bit(isLoad), FpNum(ft), Num(rn))
    ensures DecodeLoadStore(w, mode) == Some(FpLoadStoreImm(isLoad, ft, Plain(rn), mode))
  {
    hide ToBits, FromBits, Fits, Num, RegAt, FpNum, FpRegAt, Size, V, Shift22, Rd, Rn;
    FpNumBack(ft);
    NumBack(rn);
  }

  /** The access size a word's size field stands for is the mnemonic's. */
  lemma SizesAgree(op: LdStOp)
    ensures SizeInBytes(LdStCodes(op).0) == AccessSize(op) && Fits(LdStCodes(op).0, 3) && Fits(LdStCodes(op).1, 3)
  {
    LdStBack(op);
  }

  lemma PairDecoded(isLoad: bool, is64: bool, rt1: Reg, rt2: Reg, rn: Reg, imm: SImm7Scaled, index: PairIndex)
    requires rt1.is64 == rt2.is64 == is64 && rn.is64
    ensures var w := LoadStorePairWord(if is64 then 2 else 0, PairMode(index), Bit(isLoad), Imm7Bits(imm.scaled), Num(rt2), Num(rn), Num(rt1));
            Decode(w) == Some(LoadStorePair(isLoad, is64, Plain(rt1), Plain(rt2), Plain(rn),
                                                            SImm7Scaled(imm.scaled, if is64 then 8 else 4), index))
  {
    hide ToBits, FromBits, Fits, Bit, IsSet, ShapeOf, Num, RegAt, LoadStorePairWord, Size, Mode23, N22, Imm7, Ra, Rn, Rd,
      PairMode, PairModeAt, Imm7Bits, Imm7At;
    SmallFits();
    PairModeBack(index);
    BitBack(isLoad);
    Imm7Back(imm.scaled);
    NumBack(rt1);
    NumBack(rt2);
    NumBack(rn);
    LoadStorePairFields(if is64 then 2 else 0, PairMode(index), Bit(isLoad), Imm7Bits(imm.scaled), Num(rt2), Num(rn), Num(rt1));
  }

  // ---- Branches ----

  /** The offset survives the field of this width: it was checked for the width, or is a forward
      distance the field can hold anyway. */
  predicate OffsetReads(o: BranchOffset, width: BranchWidth) {
    o.width == width || o.wordOff < SignBit(width)
  }

  /** `x` in the field of the width reads back as `off`. */
  predicate FieldReads(x: bv32, width: BranchWidth, off: bv32) {
    Fits(x, Mask(width)) && OffsetAt(x, width).wordOff == off
  }

  lemma Own26(o: BranchOffset)
    requires o.InRange() && o.width == Imm26
    ensures FieldReads(o.Encoding(), Imm26, o.wordOff)
  {
    hide SignExtend, FieldReads;
    Kept26(o.wordOff);
  }

  lemma Kept26(x: bv32)
    requires SignExtend(x, 0x200_0000, 0x3FF_FFFF) == x
    ensures FieldReads(x & 0x3FF_FFFF, Imm26, x)
  {
  }

  lemma Forward26In19(o: BranchOffset)
    requires o.InRange() && o.width == Imm26 && OffsetReads(o, Imm19)
    ensures FieldReads(o.Encoding(), Imm19, o.wordOff)
  {
  }

  lemma Forward26In14(o: BranchOffset)
    requires o.InRange() && o.width == Imm26 && OffsetReads(o, Imm14)
    ensures FieldReads(o.Encoding(), Imm14, o.wordOff)
  {
  }

  lemma Forward19In26(o: BranchOffset)
    requires o.InRange() && o.width == Imm19 && OffsetReads(o, Imm26)
    ensures FieldReads(o.Encoding(), Imm26, o.wordOff)
  {
  }

  lemma Own19(o: BranchOffset)
    requires o.InRange() && o.width == Imm19
    ensures FieldReads(o.Encoding(), Imm19, o.wordOff)
  {
    hide SignExtend, FieldReads;
    Kept19(o.wordOff);
  }

  lemma Kept19(x: bv32)
    requires SignExtend(x, 0x4_0000, 0x7_FFFF) == x
    ensures FieldReads(x & 0x7_FFFF, Imm19, x)
  {
  }

  lemma Forward19In14(o: BranchOffset)
    requires o.InRange() && o.width == Imm19 && OffsetReads(o, Imm14)
    ensures FieldReads(o.Encoding(), Imm14, o.wordOff)
  {
  }

  lemma Forward14In26(o: BranchOffset)
    requires o.InRange() && o.width == Imm14 && OffsetReads(o, Imm26)
    ensures FieldReads(o.Encoding(), Imm26, o.wordOff)
  {
  }

  lemma Forward14In19(o: BranchOffset)
    requires o.InRange() && o.width == Imm14 && OffsetReads(o, Imm19)
    ensures FieldReads(o.Encoding(), Imm19, o.wordOff)
  {
  }

  lemma Own14(o: BranchOffset)
    requires o.InRange() && o.width == Imm14
    ensures FieldReads(o.Encoding(), Imm14, o.wordOff)
  {
    hide SignExtend, FieldReads;
    Kept14(o.wordOff);
  }

  lemma Kept14(x: bv32)
    requires SignExtend(x, 0x2000, 0x3FFF) == x
    ensures FieldReads(x & 0x3FFF, Imm14, x)
  {
  }

  lemma OffsetBack(o: BranchOffset, width: BranchWidth)
    requires o.InRange() && OffsetReads(o, width)
    ensures FieldReads(o.Encoding(), width, o.wordOff)
  {
    hide *;
    match (o.width, width) {
      case (Imm26, Imm26) => Own26(o);
      case (Imm26, Imm19) => Forward26In19(o);
      case (Imm26, Imm14) => Forward26In14(o);
      case (Imm19, Imm26) => Forward19In26(o);
      case (Imm19, Imm19) => Own19(o);
      case (Imm19, Imm14) => Forward19In14(o);
      case (Imm14, Imm26) => Forward14In26(o);
      case (Imm14, Imm19) => Forward14In19(o);
      case (Imm14, Imm14) => Own14(o);
    }
  }

  /** A backward offset checked for a narrower width turns into a forward one. */
  lemma NarrowBackward(o: BranchOffset, width: BranchWidth)
    requires o.InRange() && !OffsetReads(o, width)
    requires (o.width.Imm14? && !width.Imm14?) || (o.width.Imm19? && width.Imm26?)
    ensures Fits(o.Encoding(), Mask(width)) && OffsetAt(o.Encoding(), width).wordOff != o.wordOff
  {
    hide *;
    if o.width == Imm19 {
      Backward19In26(o);
    } else if width == Imm26 {
      Backward14In26(o);
    } else if width == Imm19 {
      Backward14In19(o);
    }
  }

  lemma Backward14In26(o: BranchOffset)
    requires o.InRange() && o.width == Imm14 && !OffsetReads(o, Imm26)
    ensures Fits(o.Encoding(), Mask(Imm26)) && OffsetAt(o.Encoding(), Imm26).wordOff != o.wordOff
  {
  }

  lemma Backward14In19(o: BranchOffset)
    requires o.InRange() && o.width == Imm14 && !OffsetReads(o, Imm19)
    ensures Fits(o.Encoding(), Mask(Imm19)) && OffsetAt(o.Encoding(), Imm19).wordOff != o.wordOff
  {
  }

  lemma Backward19In26(o: BranchOffset)
    requires o.InRange() && o.width == Imm19 && !OffsetReads(o, Imm26)
    ensures Fits(o.Encoding(), Mask(Imm26)) && OffsetAt(o.Encoding(), Imm26).wordOff != o.wordOff
  {
  }

  lemma NopDecoded()
    ensures Decode(NopWord()) == Some(System(Nop))
  {
    hide ShapeOf, NopWord;
    NopFields();
  }

  lemma BranchDecoded(link: bool, x: bv32)
    requires Fits(x, 0x3FF_FFFF)
    ensures var w := BranchWord(Bit(link), x);
            Decode(w) == Some(Branch(link, OffsetAt(x, Imm26)))
  {
    hide Fits, Bit, IsSet, ShapeOf, BranchWord, Sf, Off26, OffsetAt;
    BitBack(link);
    BranchFields(Bit(link), x);
  }

  lemma BranchCondDecoded(cond: Cond, x: bv32)
    requires Fits(x, 0x7_FFFF)
    ensures var w := BranchCondWord(x, CondBits(cond));
            Decode(w) == Some(BranchCond(cond, OffsetAt(x, Imm19)))
  {
    hide Fits, CondBits, CondAt, ShapeOf, BranchCondWord, Off19, Cond0, OffsetAt;
    CondBack(cond);
    BranchCondFields(x, CondBits(cond));
  }

  lemma CompareBranchDecoded(isNonzero: bool, rt: Reg, x: bv32)
    requires Fits(x, 0x7_FFFF)
    ensures var w := CompareBranchWord(Bit(rt.is64), Bit(isNonzero), x, Num(rt));
            Decode(w) == Some(CompareBranch(rt.is64, isNonzero, Plain(rt), OffsetAt(x, Imm19)))
  {
    hide ToBits, FromBits, Fits, Bit, IsSet, Num, RegAt, ShapeOf, CompareBranchWord, Sf, Nz, Off19, Rd, OffsetAt;
    BitBack(rt.is64);
    BitBack(isNonzero);
    NumBack(rt);
    CompareBranchFields(Bit(rt.is64), Bit(isNonzero), x, Num(rt));
  }

  /** With whatever stands in the low bits of the bit number. */
  lemma TestBranchDecoded(isNonzero: bool, rt: Reg, b5: U1, b40: bv32, x: bv32)
    requires Fits(x, 0x3FFF) && Fits(b40, 0x1F)
    ensures var w := TestBranchWord(ToBits(b5, 1), Bit(isNonzero), b40, x, Num(rt));
            var bit := 32 * b5 + Number5(b40);
            Decode(w) == Some(TestBranch(isNonzero, Plain(rt).(is64 := bit >= 32), bit, OffsetAt(x, Imm14)))
  {
    hide ToBits, FromBits, Fits, Bit, IsSet, Num, ShapeOf, TestBranchWord, Sf, Nz, B40, Off14, Rd, OffsetAt;
    Back1(b5);
    BitBack(isNonzero);
    NumBack(rt);
    TestBranchFields(ToBits(b5, 1), Bit(isNonzero), b40, x, Num(rt));
  }

  // ---- An offset checked for a wider width spills into the bits above its field ----

  lemma BranchCondBits(w: bv32)
    requires ShapeOf(w) == SBranchCond
    ensures w & 0xFF00_0010 == 0x5400_0000
  {
  }

  lemma CompareBranchBits(w: bv32)
    requires ShapeOf(w) == SCompareBranch
    ensures w & 0x7E00_0000 == 0x3400_0000
  {
  }

  lemma TestBranchBits(w: bv32)
    requires ShapeOf(w) == STestBranch
    ensures w & 0x7E00_0000 == 0x3600_0000
  {
  }

  lemma SpillsBranchCond(x: bv32, c: bv32, w: bv32)
    requires SignExtend(x, 0x200_0000, 0x3FF_FFFF) == x && x >= 0x4_0000 && Fits(c, 0xF)
    requires w == BranchCondWord(x & 0x3FF_FFFF, c) && w & 0xFF00_0010 == 0x5400_0000
    ensures SignExtend(Off19(w), 0x4_0000, 0x7_FFFF) != x
  {
  }

  lemma SpillsCompareBranch(x: bv32, sf: bv32, nz: bv32, rt: bv32, w: bv32)
    requires SignExtend(x, 0x200_0000, 0x3FF_FFFF) == x && x >= 0x4_0000
    requires Fits(sf, 1) && Fits(nz, 1) && Fits(rt, 0x1F)
    requires w == CompareBranchWord(sf, nz, x & 0x3FF_FFFF, rt) && w & 0x7E00_0000 == 0x3400_0000
    ensures SignExtend(Off19(w), 0x4_0000, 0x7_FFFF) != x
  {
  }

  lemma SpillsTestBranch(x: bv32, b5: bv32, nz: bv32, b40: bv32, rt: bv32, w: bv32)
    requires SignExtend(x, 0x200_0000, 0x3FF_FFFF) == x && x >= 0x2000
    requires Fits(b5, 1) && Fits(nz, 1) && Fits(b40, 0x1F) && Fits(rt, 0x1F)
    requires w == TestBranchWord(b5, nz, b40, x & 0x3FF_FFFF, rt) && w & 0x7E00_0000 == 0x3600_0000
    ensures SignExtend(Off14(w), 0x2000, 0x3FFF) != x
  {
  }

  /** The field of an offset made for 19 bits. */
  predicate Masked19(x: bv32, enc: bv32) {
    enc == x & 0x7_FFFF
  }

  function Low14(x: bv32): bv32 {
    x & 0x3FFF
  }

  /** The low bits of a bit number once a 19-bit offset has been merged into them. */
  function Merged(b40: bv32, x: bv32): bv32 {
    b40 | ((x >> 14) & 0x1F)
  }

  /** Five bits of a 19-bit offset land in the bit number. */
  lemma SpillsIntoBit(x: bv32, enc: bv32, b5: bv32, nz: bv32, b40: bv32, rt: bv32)
    requires Fits(b5, 1) && Fits(nz, 1) && Fits(b40, 0x1F) && Fits(rt, 0x1F) && Masked19(x, enc)
    ensures TestBranchWord(b5, nz, b40, enc, rt) == TestBranchWord(b5, nz, Merged(b40, x), Low14(x), rt)
  {
  }

  lemma MergedFits(x: bv32, b40: bv32)
    requires Fits(b40, 0x1F)
    ensures Fits(Merged(b40, x), 0x1F) && Fits(Low14(x), 0x3FFF)
  {
  }

  predicate Backward14(x: bv32) {
    x >= 0xFFFF_E000
  }

  lemma SpilledBackward(x: bv32)
    requires x >= 0x2000 && SignExtend(x & 0x3FFF, 0x2000, 0x3FFF) == x
    ensures Backward14(x)
  {
  }

  lemma BackwardMerges(x: bv32, b40: bv32)
    requires Backward14(x) && Fits(b40, 0x1F)
    ensures Merged(b40, x) == 0x1F
  {
  }

  lemma BackwardSpills(x: bv32)
    requires Backward14(x)
    ensures SignExtend(x & 0x3FFF, 0x2000, 0x3FFF) == x
  {
  }

  lemma AllOnes()
    ensures Number5(0x1F) == 31 && ToBits(31, 5) == 0x1F
  {
    assert FromBits(1, 1) == 1;
    assert FromBits(3, 2) == 3;
    assert FromBits(7, 3) == 7;
    assert FromBits(0xF, 4) == 15;
    assert ToBits(1, 1) == 1;
    assert ToBits(3, 2) == 3;
    assert ToBits(7, 3) == 7;
    assert ToBits(15, 4) == 0xF;
  }
}
