/** The constructors and the encoder (crates/fors-asm/src/inst.rs, crates/fors-asm/src/encode.rs)
    against the manual: when a word reads back with the registers that were meant, when it is
    UNDEFINED, and which legal operands each constructor accepts. */
module Legality {
  import opened Wrappers
  import opened Fields
  import opened Operands
  import opened Instructions
  import opened Layouts
  import opened Encoder
  import opened RoundTrip
  import opened EncodingExact
  import opened Manual

  // ---- Reading registers back ----

  /** The same register, up to the W or X spelling. */
  predicate SameName(a: Reg, b: Reg) {
    a.num == b.num && a.IsSp() == b.IsSp()
  }

  /** The machine takes, place by place, the registers `i` names. */
  predicate TakesRegisters(d: Inst, i: Inst) {
    && |Places(AsRead(d))| == |Places(i)|
    && forall k | 0 <= k < |Places(i)| :: SameName(Places(AsRead(d))[k].reg, Places(i)[k].reg)
  }

  /** The word decodes to the instruction, and to the registers it names. */
  predicate ReadsAsMeant(i: Inst) {
    ReadsBack(i) && TakesRegisters(Decode(Encode(i)).value, i)
  }

  lemma PlacesRead(d: Inst)
    ensures |Places(AsRead(d))| == |Places(d)|
    ensures forall k | 0 <= k < |Places(d)| ::
              Places(AsRead(d))[k] == Operand(At(Places(d)[k].reg, Places(d)[k].place), Places(d)[k].place)
  {
  }

  predicate CanonKeepsPlaces(i: Inst) {
    && |Places(Canon(i))| == |Places(i)|
    && forall k | 0 <= k < |Places(i)| ::
         && Places(Canon(i))[k].place == Places(i)[k].place
         && Places(Canon(i))[k].reg.num == Places(i)[k].reg.num && !Places(Canon(i))[k].reg.sp
  }

  lemma PlacesCanonSums(i: Inst)
    requires i.MovWide? || i.AddSubImm? || i.AddSubShiftedReg? || i.AddSubExtendedReg? || i.LogicalImmInst?
             || i.LogicalShiftedReg?
    ensures CanonKeepsPlaces(i)
  {
  }

  lemma PlacesCanonSources(i: Inst)
    requires i.Bitfield? || i.DataProc1Source? || i.DataProc2Source? || i.DataProc3Source? || i.CondSelect?
    ensures CanonKeepsPlaces(i)
  {
  }

  lemma PlacesCanonTransfers(i: Inst)
    requires i.LoadStoreImm? || i.LoadStorePair? || i.FpLoadStoreImm?
    ensures CanonKeepsPlaces(i)
  {
  }

  lemma PlacesCanon(i: Inst)
    ensures CanonKeepsPlaces(i)
  {
    if i.MovWide? || i.AddSubImm? || i.AddSubShiftedReg? || i.AddSubExtendedReg? || i.LogicalImmInst? || i.LogicalShiftedReg? {
      PlacesCanonSums(i);
    } else if i.Bitfield? || i.DataProc1Source? || i.DataProc2Source? || i.DataProc3Source? || i.CondSelect? {
      PlacesCanonSources(i);
    } else if i.LoadStoreImm? || i.LoadStorePair? || i.FpLoadStoreImm? {
      PlacesCanonTransfers(i);
    }
  }

  lemma CanonTakes(i: Inst)
    ensures TakesRegisters(Canon(i), i) <==> RegistersMeant(i)
  {
    hide Places, AsRead, Canon;
    PlacesCanon(i);
    PlacesRead(Canon(i));
  }

  /** An instruction the constructors let through is read back from its word with the registers it
      names if and only if its offsets were made for it and every operand numbered 31 is the
      register its place reads. */
  lemma MeantExact(i: Inst)
    requires Constructed(i)
    ensures ReadsAsMeant(i) <==> Faithful(i) && RegistersMeant(i)
  {
    hide Encode, Decode, Canon, Constructed, Faithful, TakesRegisters, RegistersMeant;
    RoundTripExact(i);
    CanonTakes(i);
  }

  // ---- What the constructors check, and what they do not ----

  /** Forms whose constructor looks at every operand numbered 31. */
  predicate Guarded(i: Inst) {
    match i
    case AddSubImm(_, _, _, _, _, _) => true
    case AddSubShiftedReg(_, _, _, _, _, _, _) => true
    case LogicalImmInst(op, _, _, _, _) => op.AndsImm?
    case LogicalShiftedReg(_, _, _, _, _, _) => true
    case Bitfield(_, _, _, _, _, _) => true
    case DataProc2Source(_, _, _, _) => true
    case DataProc3Source(op, _, _, _, _, isMul) => !isMul && (op.Madd? || op.Msub?)
    case DataProc1Source(_, _, _) => true
    case CondSelect(_, _, _, _, _, _) => true
    case _ => Places(i) == []
  }

  lemma PlaceByPlace(i: Inst)
    ensures var os := Places(i);
            && |os| <= 4
            && (RegistersMeant(i) <==>
                  && (|os| > 0 ==> ReadAsMeant(os[0])) && (|os| > 1 ==> ReadAsMeant(os[1]))
                  && (|os| > 2 ==> ReadAsMeant(os[2])) && (|os| > 3 ==> ReadAsMeant(os[3])))
  {
  }

  lemma GuardedMeans(i: Inst)
    requires Constructed(i) && Guarded(i)
    ensures RegistersMeant(i)
  {
  }

  /** A shift made for 64 bits on 32-bit registers. */
  predicate Overshifted(i: Inst) {
    (i.AddSubShiftedReg? || i.LogicalShiftedReg?) && !i.rd.is64 && i.regShift.amount >= 32
  }

  /** Legal operands the constructors refuse: a doubleword extend in a 32-bit sum, and a write-back
      to SP beside a transfer of ZR. */
  predicate Overstrict(i: Inst) {
    match i
    case AddSubExtendedReg(_, _, rd, _, _, extend, _) => FromX(extend.kind) && !rd.is64
    case LoadStoreImm(_, rt, rn, mode) => Writeback(mode) && rt.num == rn.num == 31
    case LoadStorePair(_, _, rt1, rt2, rn, _, index) => !index.Offset? && rn.num == 31 && (rt1.num == 31 || rt2.num == 31)
    case _ => false
  }

  predicate LegalExactly(i: Inst) {
    Legal(i) && !Overstrict(i) <==> Constructed(i) && RegistersMeant(i) && !Overshifted(i)
  }

  lemma SumsLegal(i: Inst)
    requires WellMade(i) && (i.AddSubImm? || i.AddSubShiftedReg? || i.AddSubExtendedReg? || i.MovWide?)
    ensures LegalExactly(i)
  {
    PlaceByPlace(i);
  }

  lemma LogicLegal(i: Inst)
    requires WellMade(i) && (i.LogicalImmInst? || i.LogicalShiftedReg? || i.Bitfield? || i.CondSelect?)
    ensures LegalExactly(i)
  {
    PlaceByPlace(i);
  }

  lemma SourcesLegal(i: Inst)
    requires WellMade(i) && (i.DataProc1Source? || i.DataProc2Source? || i.DataProc3Source?)
    ensures LegalExactly(i)
  {
    PlaceByPlace(i);
  }

  lemma TransfersLegal(i: Inst)
    requires WellMade(i) && (i.LoadStoreImm? || i.LoadStorePair? || i.FpLoadStoreImm?)
    ensures LegalExactly(i)
  {
    PlaceByPlace(i);
  }

  /** The constructors let through exactly the legal instructions, but for two things they do not
      check (operands numbered 31 in unguarded forms, shifts against the register width) and two
      kinds of legal operands they refuse. */
  lemma LegalIff(i: Inst)
    requires WellMade(i)
    ensures LegalExactly(i)
  {
    if i.AddSubImm? || i.AddSubShiftedReg? || i.AddSubExtendedReg? || i.MovWide? {
      SumsLegal(i);
    } else if i.LogicalImmInst? || i.LogicalShiftedReg? || i.Bitfield? || i.CondSelect? {
      LogicLegal(i);
    } else if i.DataProc1Source? || i.DataProc2Source? || i.DataProc3Source? {
      SourcesLegal(i);
    } else if i.LoadStoreImm? || i.LoadStorePair? || i.FpLoadStoreImm? {
      TransfersLegal(i);
    }
  }

  // ---- Constructor by constructor ----

  lemma MovWideLegal(op: MovWideOp, rd: Reg, imm16: U16, shift: U8)
    ensures NewMovWide(op, rd, imm16, shift).Ok? && !rd.IsSp() <==> Legal(MovWide(op, rd, imm16, shift))
  {
    PlaceByPlace(MovWide(op, rd, imm16, shift));
    LegalIff(MovWide(op, rd, imm16, shift));
  }

  lemma AddSubImmLegal(op: AddSubOp, setFlags: bool, rd: Reg, rn: Reg, imm: Uimm12Lsl, alias: AddSubAlias)
    ensures NewAddSubImm(op, setFlags, rd, rn, imm, alias).Ok? <==> Legal(AddSubImm(op, setFlags, rd, rn, imm, alias))
  {
    PlaceByPlace(AddSubImm(op, setFlags, rd, rn, imm, alias));
    LegalIff(AddSubImm(op, setFlags, rd, rn, imm, alias));
  }

  lemma AddSubShiftedLegal(op: AddSubOp, setFlags: bool, rd: Reg, rn: Reg, rm: Reg, shift: RegShift, alias: AddSubAlias)
    ensures NewAddSubShifted(op, setFlags, rd, rn, rm, shift, alias).Ok? && shift.amount < WidthOf(rd.is64)
            <==> Legal(AddSubShiftedReg(op, setFlags, rd, rn, rm, shift, alias))
  {
    PlaceByPlace(AddSubShiftedReg(op, setFlags, rd, rn, rm, shift, alias));
    LegalIff(AddSubShiftedReg(op, setFlags, rd, rn, rm, shift, alias));
  }

  /** The sum of an extended register leaves out legal 32-bit forms, and lets through `rd` and `rn`
      whatever they make of 31. */
  lemma AddSubExtendedLegal(op: AddSubOp, setFlags: bool, rd: Reg, rn: Reg, rm: Reg, extend: RegExtend, alias: AddSubAlias)
    requires extend.amount <= 4
    ensures NewAddSubExtended(op, setFlags, rd, rn, rm, extend, alias).Ok? && !rn.IsZr()
            && (if setFlags then !rd.IsSp() else !rd.IsZr())
            <==> Legal(AddSubExtendedReg(op, setFlags, rd, rn, rm, extend, alias)) && (FromX(extend.kind) ==> rd.is64)
  {
    PlaceByPlace(AddSubExtendedReg(op, setFlags, rd, rn, rm, extend, alias));
    LegalIff(AddSubExtendedReg(op, setFlags, rd, rn, rm, extend, alias));
  }

  lemma LogicalImmLegal(op: LogicalImmOp, rd: Reg, rn: Reg, imm: LogicalImm, alias: LogicalAlias)
    requires LogicalValue(imm).Some?
    ensures NewLogicalImmInst(op, rd, rn, imm, alias).Ok? && (op.AndsImm? || !rd.IsZr())
            <==> Legal(LogicalImmInst(op, rd, rn, imm, alias))
  {
    PlaceByPlace(LogicalImmInst(op, rd, rn, imm, alias));
    LegalIff(LogicalImmInst(op, rd, rn, imm, alias));
  }

  lemma LogicalShiftedLegal(op: LogicalShiftOp, rd: Reg, rn: Reg, rm: Reg, shift: RegShift, alias: LogicalAlias)
    ensures NewLogicalShifted(op, rd, rn, rm, shift, alias).Ok? && shift.amount < WidthOf(rd.is64)
            <==> Legal(LogicalShiftedReg(op, rd, rn, rm, shift, alias))
  {
    PlaceByPlace(LogicalShiftedReg(op, rd, rn, rm, shift, alias));
    LegalIff(LogicalShiftedReg(op, rd, rn, rm, shift, alias));
  }

  lemma BitfieldLegal(op: BitfieldOp, rd: Reg, rn: Reg, immr: U8, imms: U8, alias: BitfieldAlias)
    ensures NewBitfield(op, rd, rn, immr, imms, alias).Ok?
            <==> immr < 64 && imms < 64 && Legal(Bitfield(op, rd, rn, immr, imms, alias))
  {
    if immr < 64 && imms < 64 {
      PlaceByPlace(Bitfield(op, rd, rn, immr, imms, alias));
      LegalIff(Bitfield(op, rd, rn, immr, imms, alias));
    }
  }

  lemma DataProc2Legal(op: DataProc2Op, rd: Reg, rn: Reg, rm: Reg)
    ensures NewDataProc2(op, rd, rn, rm).Ok? <==> Legal(DataProc2Source(op, rd, rn, rm))
  {
    PlaceByPlace(DataProc2Source(op, rd, rn, rm));
    LegalIff(DataProc2Source(op, rd, rn, rm));
  }

  lemma MaddMsubLegal(sub: bool, rd: Reg, rn: Reg, rm: Reg, ra: Reg)
    ensures NewMaddMsub(sub, rd, rn, rm, ra).Ok?
            <==> Legal(DataProc3Source(if sub then Msub else Madd, rd, rn, rm, ra, false))
  {
    PlaceByPlace(DataProc3Source(if sub then Msub else Madd, rd, rn, rm, ra, false));
    LegalIff(DataProc3Source(if sub then Msub else Madd, rd, rn, rm, ra, false));
  }

  lemma MulLegal(rd: Reg, rn: Reg, rm: Reg)
    ensures NewMul(rd, rn, rm).Ok? && !rd.IsSp() && !rn.IsSp() && !rm.IsSp()
            <==> Legal(DataProc3Source(Madd, rd, rn, rm, Zr(rd.is64), true))
  {
    PlaceByPlace(DataProc3Source(Madd, rd, rn, rm, Zr(rd.is64), true));
    LegalIff(DataProc3Source(Madd, rd, rn, rm, Zr(rd.is64), true));
  }

  lemma MulhLegal(unsigned: bool, rd: Reg, rn: Reg, rm: Reg)
    ensures NewMulh(unsigned, rd, rn, rm).Ok? && !rd.IsSp() && !rn.IsSp() && !rm.IsSp()
            <==> Legal(DataProc3Source(if unsigned then Umulh else Smulh, rd, rn, rm, Zr(true), false))
  {
    PlaceByPlace(DataProc3Source(if unsigned then Umulh else Smulh, rd, rn, rm, Zr(true), false));
    LegalIff(DataProc3Source(if unsigned then Umulh else Smulh, rd, rn, rm, Zr(true), false));
  }

  lemma DataProc1Legal(op: DataProc1Op, rd: Reg, rn: Reg)
    ensures NewDataProc1(op, rd, rn).Ok? <==> Legal(DataProc1Source(op, rd, rn))
  {
    PlaceByPlace(DataProc1Source(op, rd, rn));
    LegalIff(DataProc1Source(op, rd, rn));
  }

  lemma CondSelectLegal(op: CondSelectOp, rd: Reg, rn: Reg, rm: Reg, cond: Cond, alias: CondSelectAlias)
    ensures NewCondSelect(op, rd, rn, rm, cond, alias).Ok? <==> Legal(CondSelect(op, rd, rn, rm, cond, alias))
  {
    PlaceByPlace(CondSelect(op, rd, rn, rm, cond, alias));
    LegalIff(CondSelect(op, rd, rn, rm, cond, alias));
  }

  lemma TestBranchLegal(isNonzero: bool, rt: Reg, bit: U8, offset: BranchOffset)
    requires offset.InRange()
    ensures NewTestBranch(isNonzero, rt, bit, offset).Ok? && !rt.IsSp()
            <==> bit < 64 && Legal(TestBranch(isNonzero, rt, bit, offset))
  {
    if bit < 64 {
      PlaceByPlace(TestBranch(isNonzero, rt, bit, offset));
      LegalIff(TestBranch(isNonzero, rt, bit, offset));
    }
  }

  /** Loads and stores leave out write-back to SP beside ZR, and let through SP as the transferred
      or the offset register. */
  lemma LoadStoreLegal(op: LdStOp, rt: Reg, rn: Reg, mode: AddrMode)
    requires ModeOk(mode)
    ensures NewLoadStore(op, rt, rn, mode).Ok? && !rt.IsSp() && (mode.ByRegister? ==> !mode.ro.rm.IsSp())
            <==> Legal(LoadStoreImm(op, rt, rn, mode)) && (Writeback(mode) ==> !(rt.num == rn.num == 31))
  {
    PlaceByPlace(LoadStoreImm(op, rt, rn, mode));
    LegalIff(LoadStoreImm(op, rt, rn, mode));
  }

  lemma LoadStorePairLegal(isLoad: bool, rt1: Reg, rt2: Reg, rn: Reg, imm: SImm7Scaled, index: PairIndex)
    requires imm.accessSize > 0
    ensures NewLoadStorePair(isLoad, rt1, rt2, rn, imm, index).Ok? && !rt1.IsSp() && !rt2.IsSp() && !rn.IsZr()
            <==> && Legal(LoadStorePair(isLoad, rt1.is64, rt1, rt2, rn, imm, index))
                 && (!index.Offset? ==> !(rn.num == 31 && (rt1.num == 31 || rt2.num == 31)))
  {
    PlaceByPlace(LoadStorePair(isLoad, rt1.is64, rt1, rt2, rn, imm, index));
    LegalIff(LoadStorePair(isLoad, rt1.is64, rt1, rt2, rn, imm, index));
  }

  // ---- Operands made for an instruction ----

  /** A shift made for the width of the registers is never too large for them. */
  lemma ShiftMadeForWidth(kind: ShiftKind, amount: U8, rd: Reg, rn: Reg, rm: Reg, op: LogicalShiftOp)
    requires NewRegShift(kind, amount, rd.is64).Ok?
    ensures !Overshifted(LogicalShiftedReg(op, rd, rn, rm, NewRegShift(kind, amount, rd.is64).value, NoLogicalAlias))
  {
  }

  /** Operands that were made can be used: the amount of an extend, the widths of an offset. */
  lemma MadeOperands(kind: ExtendKind, amount: U8, rm: Reg, extend: LdStExtend, shifted: bool)
    ensures NewRegExtend(kind, amount).Ok? ==> NewRegExtend(kind, amount).value.amount <= 4
    ensures NewRegOffset(rm, extend, shifted).Ok? <==> ModeOk(ByRegister(RegOffset(rm, extend, shifted)))
  {
  }

  // ---- UNDEFINED words ----

  /** The same on what the word decodes to. */
  predicate UndefinedInst(d: Inst) {
    match d
    case MovWide(_, rd, _, shift) => !rd.is64 && shift >= 32
    case AddSubShiftedReg(_, _, rd, _, _, shift, _) => shift.kind.Ror? || (!rd.is64 && shift.amount >= 32)
    case AddSubExtendedReg(_, _, _, _, _, extend, _) => extend.amount > 4
    case LogicalImmInst(_, _, _, imm, _) => LogicalValue(imm).None?
    case LogicalShiftedReg(_, rd, _, _, shift, _) => !rd.is64 && shift.amount >= 32
    case Bitfield(_, rd, _, immr, imms, _) => !rd.is64 && (immr >= 32 || imms >= 32)
    case System(sys) => sys.Udf?
    case _ => false
  }

  predicate UndefinedAgrees(w: bv32) {
    Decode(w).Some? ==> (Undefined(w) <==> UndefinedInst(Decode(w).value))
  }

  lemma UndefinedImmediates(w: bv32)
    requires ShapeOf(w) == SMovWide || ShapeOf(w) == SLogicalImm || ShapeOf(w) == SBitfield
    ensures UndefinedAgrees(w)
  {
    hide Number1, Number2, Number6, IsSet, ShapeOf, Sf, Hw, Imm6, Immr, N22, Opc29;
    hide BitfieldOpcAt, MovWideOpcAt, LogicalImmOpcAt;
  }

  lemma UndefinedShifts(w: bv32)
    requires ShapeOf(w) == SAddSubShifted || ShapeOf(w) == SLogicalShifted || ShapeOf(w) == SAddSubExtended
    ensures UndefinedAgrees(w)
  {
    hide Number3, Number6, IsSet, ShapeOf, Sf, Imm6, Imm3, Shift22, Opc29;
    hide ShiftBitsAt, ExtendBitsAt, LogicalShiftAt;
  }

  lemma UndefinedOthers(w: bv32)
    requires !(ShapeOf(w) == SMovWide || ShapeOf(w) == SLogicalImm || ShapeOf(w) == SBitfield)
    requires !(ShapeOf(w) == SAddSubShifted || ShapeOf(w) == SLogicalShifted || ShapeOf(w) == SAddSubExtended)
    ensures UndefinedAgrees(w)
  {
    hide ShapeOf, IsSet, Sf, Number1, Number2, Number3, Number6, LogicalValue;
    hide DecodeAddSubImm, DecodeDataProc1, DecodeDataProc2, DecodeDataProc3, DecodeCondSelect, DecodeAdr, DecodeAdrp;
    hide DecodeBranch, DecodeBranchCond, DecodeCompareBranch, DecodeTestBranch, DecodeBranchReg, DecodeBranchLinkReg;
    hide DecodeRet, DecodeLoadStoreScaled, DecodeLoadStoreSimm9, DecodeLoadStoreReg;
    hide DecodeLoadStorePair, DecodeFpDataProc1, DecodeFpDataProc2, DecodeFpCompare, DecodeFpCondSelect, DecodeFpImmMove;
    hide DecodeFpInt, DecodeFpMadd;
  }

  lemma UndefinedCanon(i: Inst)
    requires Constructed(i) && (i.LogicalImmInst? ==> LogicalValue(i.mask).Some?)
    ensures UndefinedInst(Canon(i)) <==> Overshifted(i) || (i.System? && i.sys.Udf?)
  {
  }

  /** Of the words read back, exactly those with a shift beyond 32-bit registers are UNDEFINED, and
      those of UDF, which are meant to be. */
  lemma UndefinedIff(i: Inst)
    requires Constructed(i) && Faithful(i) && (i.LogicalImmInst? ==> LogicalValue(i.mask).Some?)
    ensures Undefined(Encode(i)) <==> Overshifted(i) || (i.System? && i.sys.Udf?)
  {
    hide Encode, Decode, Canon, Constructed, Faithful, Undefined, UndefinedInst, Overshifted, ShapeOf;
    RoundTripExact(i);
    UndefinedCanon(i);
    var w := Encode(i);
    if ShapeOf(w) == SMovWide || ShapeOf(w) == SLogicalImm || ShapeOf(w) == SBitfield {
      UndefinedImmediates(w);
    } else if ShapeOf(w) == SAddSubShifted || ShapeOf(w) == SLogicalShifted || ShapeOf(w) == SAddSubExtended {
      UndefinedShifts(w);
    } else {
      UndefinedOthers(w);
    }
  }

  // ---- Instances ----

  /** Two instructions that differ, `AND XZR, X1, #1` and `AND SP, X1, #1`, have one word: it writes
      the stack pointer, although the first names the zero register. */
  lemma AndWritesSp(rn: Reg, imm: LogicalImm)
    requires rn.is64 && imm.is64 && !rn.IsSp()
    ensures var zr, sp := NewLogicalImmInst(AndImm, Reg(31, true, false), rn, imm, NoLogicalAlias),
                          NewLogicalImmInst(AndImm, Reg(31, true, true), rn, imm, NoLogicalAlias);
            && zr.Ok? && sp.Ok? && zr.value != sp.value && Encode(zr.value) == Encode(sp.value)
            && RegistersMeant(sp.value) && !RegistersMeant(zr.value)
  {
    var zr := LogicalImmInst(AndImm, Reg(31, true, false), rn, imm, NoLogicalAlias);
    var sp := LogicalImmInst(AndImm, Reg(31, true, true), rn, imm, NoLogicalAlias);
    PlaceByPlace(zr);
    PlaceByPlace(sp);
  }

  /** The constructors accept the instruction, and its word takes another register than it names. */
  predicate LetsThrough(i: Inst) {
    Constructed(i) && !RegistersMeant(i)
  }

  lemma Misread(i: Inst, k: nat)
    requires Constructed(i) && k < |Places(i)| && !ReadAsMeant(Places(i)[k])
    ensures LetsThrough(i)
  {
  }

  const XZR: Reg := Reg(31, true, false)
  const SP: Reg := Reg(31, true, true)

  // Every unguarded form has such an instruction.

  lemma UnguardedSums(op: MovWideOp, rd: Reg, rn: Reg, rm: Reg, s: bool)
    requires rd.is64 && rn.is64 && rm.is64 && !rm.IsSp()
    ensures LetsThrough(MovWide(op, SP, 0, 0))
    ensures LetsThrough(AddSubExtendedReg(Add, s, if s then SP else XZR, rn, rm, RegExtend(Uxtx, 0), NoAddSubAlias))
    ensures LetsThrough(AddSubExtendedReg(Add, s, rd, XZR, rm, RegExtend(Uxtx, 0), NoAddSubAlias))
  {
    hide LetsThrough;
    Misread(MovWide(op, SP, 0, 0), 0);
    Misread(AddSubExtendedReg(Add, s, if s then SP else XZR, rn, rm, RegExtend(Uxtx, 0), NoAddSubAlias), 0);
    Misread(AddSubExtendedReg(Add, s, rd, XZR, rm, RegExtend(Uxtx, 0), NoAddSubAlias), 1);
  }

  lemma UnguardedLogic(op: LogicalImmOp, rn: Reg, imm: LogicalImm, alias: LogicalAlias)
    requires !op.AndsImm? && rn.is64 && imm.is64 && !rn.IsSp()
    ensures LetsThrough(LogicalImmInst(op, XZR, rn, imm, alias))
  {
    Misread(LogicalImmInst(op, XZR, rn, imm, alias), 0);
  }

  lemma UnguardedProducts(rn: Reg, rm: Reg, high: DataProc3Op)
    requires rn.is64 && rm.is64 && (high.Smulh? || high.Umulh?)
    ensures LetsThrough(DataProc3Source(Madd, SP, rn, rm, XZR, true)) && LetsThrough(DataProc3Source(high, SP, rn, rm, XZR, false))
  {
    hide LetsThrough;
    Misread(DataProc3Source(Madd, SP, rn, rm, XZR, true), 0);
    Misread(DataProc3Source(high, SP, rn, rm, XZR, false), 0);
  }

  lemma UnguardedBranches(nz: bool, bit: U6, o: BranchOffset)
    requires o.InRange()
    ensures LetsThrough(CompareBranch(true, nz, SP, o)) && LetsThrough(TestBranch(nz, SP, bit, o))
  {
    hide LetsThrough;
    Misread(CompareBranch(true, nz, SP, o), 0);
    Misread(TestBranch(nz, SP, bit, o), 0);
  }

  lemma UnguardedJumps()
    ensures LetsThrough(BranchReg(SP)) && LetsThrough(BranchLinkReg(SP)) && LetsThrough(Ret(SP))
  {
    hide LetsThrough;
    Misread(BranchReg(SP), 0);
    Misread(BranchLinkReg(SP), 0);
    Misread(Ret(SP), 0);
  }

  lemma UnguardedAddresses(adr: AdrOffset)
    requires adr.InRange()
    ensures LetsThrough(Adr(SP, adr)) && LetsThrough(Adrp(SP, adr))
  {
    hide LetsThrough;
    Misread(Adr(SP, adr), 0);
    Misread(Adrp(SP, adr), 0);
  }

  lemma UnguardedFloats(op: FpIntConvertOp, d: FpReg)
    requires d.double
    ensures LetsThrough(FpToGp(SP, d)) && LetsThrough(GpToFp(d, SP)) && LetsThrough(FpIntConvert(op, SP, d))
  {
    hide LetsThrough;
    Misread(FpToGp(SP, d), 0);
    Misread(GpToFp(d, SP), 0);
    Misread(FpIntConvert(op, SP, d), 0);
  }

  /** Loads and stores: the transferred register, and the offset register. */
  lemma UnguardedTransfers(op: LdStOp, rt: Reg, rn: Reg, simm: Simm9, shifted: bool)
    requires simm.InRange() && rn.is64 && rn.num != 31 && rt.is64 == RtIs64(op)
    ensures LetsThrough(LoadStoreImm(op, Reg(31, RtIs64(op), true), rn, PreIndex(simm)))
    ensures LetsThrough(LoadStoreImm(op, rt, rn, ByRegister(RegOffset(SP, ByLsl, shifted))))
  {
    hide LetsThrough;
    Misread(LoadStoreImm(op, Reg(31, RtIs64(op), true), rn, PreIndex(simm)), 0);
    Misread(LoadStoreImm(op, rt, rn, ByRegister(RegOffset(SP, ByLsl, shifted))), 2);
  }

  /** Pairs and floating-point transfers: also the base. */
  lemma UnguardedPairs(l: bool, rt: Reg, rt2: Reg, rn: Reg, imm: SImm7Scaled)
    requires imm.accessSize > 0 && rt.is64 && rt2.is64 && rn.is64 && rt.num != rt2.num && rt.num != 31
    ensures LetsThrough(LoadStorePair(l, true, rt, rt2, XZR, imm, Offset)) && LetsThrough(LoadStorePair(l, true, rt, SP, rn, imm, Offset))
  {
    hide LetsThrough;
    Misread(LoadStorePair(l, true, rt, rt2, XZR, imm, Offset), 2);
    Misread(LoadStorePair(l, true, rt, SP, rn, imm, Offset), 1);
  }

  lemma UnguardedFloatTransfers(l: bool, rn: Reg, ft: FpReg, simm: Simm9, shifted: bool)
    requires simm.InRange() && rn.is64
    ensures LetsThrough(FpLoadStoreImm(l, ft, XZR, Unscaled(simm)))
    ensures LetsThrough(FpLoadStoreImm(l, ft, rn, ByRegister(RegOffset(SP, ByLsl, shifted))))
  {
    hide LetsThrough;
    Misread(FpLoadStoreImm(l, ft, XZR, Unscaled(simm)), 0);
    Misread(FpLoadStoreImm(l, ft, rn, ByRegister(RegOffset(SP, ByLsl, shifted))), 1);
  }

  /** `ADD W0, W1, W2, LSL #40`, with a shift made for 64 bits, is accepted, and UNDEFINED. */
  lemma WideShiftIsUndefined(rd: Reg, rn: Reg, rm: Reg)
    requires !rd.is64 && !rn.is64 && !rm.is64 && !rd.IsSp() && !rn.IsSp() && !rm.IsSp()
    ensures NewRegShift(Lsl, 40, true) == Ok(RegShift(Lsl, 40))
    ensures var r := NewAddSubShifted(Add, false, rd, rn, rm, RegShift(Lsl, 40), NoAddSubAlias);
            r.Ok? && Undefined(Encode(r.value))
  {
    hide Encode, Undefined;
    UndefinedIff(AddSubShiftedReg(Add, false, rd, rn, rm, RegShift(Lsl, 40), NoAddSubAlias));
  }

  /** `TBZ` on bit 0 with an offset of 0x4000 words made for 19 bits has the word of `TBZ` on bit 1
      with offset 0, and reads back as that. */
  lemma WideOffsetSpills(rt: Reg)
    ensures var far := TestBranch(false, rt, 0, BranchOffset(Imm19, 0x4000));
            var near := TestBranch(false, rt, 1, BranchOffset(Imm14, 0));
            && Constructed(far) && Constructed(near) && Encode(far) == Encode(near)
            && !Faithful(far) && !ReadsBack(far) && Faithful(near) && ReadsBack(near)
  {
    hide Encode, Decode, ReadsBack, Faithful;
    var far := TestBranch(false, rt, 0, BranchOffset(Imm19, 0x4000));
    var near := TestBranch(false, rt, 1, BranchOffset(Imm14, 0));
    SpillsToBit1(rt);
    SpillFaith(rt);
    RoundTripExact(far);
    RoundTripExact(near);
  }

  lemma SpillFaith(rt: Reg)
    ensures !Faithful(TestBranch(false, rt, 0, BranchOffset(Imm19, 0x4000)))
    ensures Faithful(TestBranch(false, rt, 1, BranchOffset(Imm14, 0)))
  {
  }

  lemma SpillsToBit1(rt: Reg)
    ensures Encode(TestBranch(false, rt, 0, BranchOffset(Imm19, 0x4000)))
            == Encode(TestBranch(false, rt, 1, BranchOffset(Imm14, 0)))
  {
    hide ToBits, Num, Encode, BranchOffset.Encoding;
    TestBranchEncoded(false, rt, 0, BranchOffset(Imm19, 0x4000));
    TestBranchEncoded(false, rt, 1, BranchOffset(Imm14, 0));
    SpillOffsets();
  }

  lemma SpillOffsets()
    ensures ToBits(0, 1) == 0 && ToBits(0, 5) == 0 && ToBits(1, 5) == 1
    ensures BranchOffset(Imm19, 0x4000).Encoding() == 0x4000 && BranchOffset(Imm14, 0).Encoding() == 0
  {
  }
}
