/** Words and instructions, one for one: every instruction the constructors let through is read
    back from its word, except where an offset was made for a different branch width or a different
    access size; so equal words come from instructions a reader cannot tell apart. */
module EncodingExact {
  import opened Wrappers
  import opened Fields
  import opened Operands
  import opened Instructions
  import opened Layouts
  import opened Encoder
  import opened RoundTrip

  // ---- What a word does not carry ----

  /** A scaled offset as its number of bytes: no bytes are the same whatever the access size. */
  function CanonScaled(imm: UScaledImm12, size: nat): UScaledImm12 {
    if imm.scaled == 0 then UScaledImm12(0, size) else imm
  }

  function CanonPair(imm: SImm7Scaled, size: nat): SImm7Scaled {
    if imm.scaled == 0 then SImm7Scaled(0, size) else imm
  }

  function CanonMode(mode: AddrMode, size: nat): AddrMode {
    match mode
    case UnsignedOffset(imm) => UnsignedOffset(CanonScaled(imm, size))
    case ByRegister(ro) => ByRegister(ro.(rm := Plain(ro.rm)))
    case _ => mode
  }

  /** The instruction without what no word carries: its display alias, the SP or ZR reading of 31,
      the W or X spelling of a `TBZ` operand, and the width a branch offset was checked for. */
  function Canon(i: Inst): Inst {
    match i
    case MovWide(op, rd, imm16, shift) => MovWide(op, Plain(rd), imm16, shift)
    case AddSubImm(op, s, rd, rn, imm, _) => AddSubImm(op, s, Plain(rd), Plain(rn), imm, NoAddSubAlias)
    case AddSubShiftedReg(op, s, rd, rn, rm, shift, _) =>
      AddSubShiftedReg(op, s, Plain(rd), Plain(rn), Plain(rm), shift, NoAddSubAlias)
    case AddSubExtendedReg(op, s, rd, rn, rm, extend, _) =>
      AddSubExtendedReg(op, s, Plain(rd), Plain(rn), Plain(rm), extend, NoAddSubAlias)
    case LogicalImmInst(op, rd, rn, imm, _) => LogicalImmInst(op, Plain(rd), Plain(rn), imm, NoLogicalAlias)
    case LogicalShiftedReg(op, rd, rn, rm, shift, _) =>
      LogicalShiftedReg(op, Plain(rd), Plain(rn), Plain(rm), shift, NoLogicalAlias)
    case Bitfield(op, rd, rn, immr, imms, _) => Bitfield(op, Plain(rd), Plain(rn), immr, imms, NoBitfieldAlias)
    case DataProc2Source(op, rd, rn, rm) => DataProc2Source(op, Plain(rd), Plain(rn), Plain(rm))
    case DataProc3Source(op, rd, rn, rm, ra, _) => DataProc3Source(op, Plain(rd), Plain(rn), Plain(rm), Plain(ra), false)
    case DataProc1Source(op, rd, rn) => DataProc1Source(op, Plain(rd), Plain(rn))
    case CondSelect(op, rd, rn, rm, cond, _) => CondSelect(op, Plain(rd), Plain(rn), Plain(rm), cond, NoCondAlias)
    case Adr(rd, adr) => Adr(Plain(rd), adr)
    case Adrp(rd, adr) => Adrp(Plain(rd), adr)
    case Branch(link, o) => Branch(link, BranchOffset(Imm26, o.wordOff))
    case BranchCond(cond, o) => BranchCond(cond, BranchOffset(Imm19, o.wordOff))
    case CompareBranch(is64, nz, rt, o) => CompareBranch(is64, nz, Plain(rt), BranchOffset(Imm19, o.wordOff))
    case TestBranch(nz, rt, bit, o) => TestBranch(nz, Plain(rt).(is64 := bit >= 32), bit, BranchOffset(Imm14, o.wordOff))
    case BranchReg(rn) => BranchReg(Plain(rn))
    case BranchLinkReg(rn) => BranchLinkReg(Plain(rn))
    case Ret(rn) => Ret(Plain(rn))
    case LoadStoreImm(op, rt, rn, mode) => LoadStoreImm(op, Plain(rt), Plain(rn), CanonMode(mode, AccessSize(op)))
    case LoadStorePair(l, is64, rt1, rt2, rn, imm, index) =>
      LoadStorePair(l, is64, Plain(rt1), Plain(rt2), Plain(rn), CanonPair(imm, if is64 then 8 else 4), index)
    case FpLoadStoreImm(l, ft, rn, mode) => FpLoadStoreImm(l, ft, Plain(rn), CanonMode(mode, if ft.double then 8 else 4))
    case FpToGp(rd, fn) => FpToGp(Plain(rd), fn)
    case GpToFp(fd, rn) => GpToFp(fd, Plain(rn))
    case FpIntConvert(op, gp, fp) => FpIntConvert(op, Plain(gp), fp)
    case System(_) => i
    case FpDataProc1(_, _, _) => i
    case FpConvert(_, _) => i
    case FpDataProc2(_, _, _, _) => i
    case FpCompare(_, _) => i
    case FpCondSelect(_, _, _, _) => i
    case FpImmMove(_, _) => i
    case FpMadd(_, _, _, _) => i
  }

  /** The word decodes to the instruction. */
  predicate ReadsBack(i: Inst) {
    Decode(Encode(i)) == Some(Canon(i))
  }

  // ---- When it does ----

  predicate ScaledReads(mode: AddrMode, size: nat) {
    mode.UnsignedOffset? ==> mode.imm.scaled == 0 || mode.imm.accessSize == size
  }

  /** A 19-bit offset of a `TBZ` spills into the bit number; a backward one does no harm there when
      those bits are ones anyway. */
  predicate TestOffsetReads(bit: U6, o: BranchOffset) {
    OffsetReads(o, Imm14) || (o.width.Imm19? && Backward14(o.wordOff) && bit % 32 == 31)
  }

  /** Offsets were made for the width and the access size of the instruction they are in (or happen
      not to depend on it): the two things neither the constructors nor the encoder check. */
  predicate Faithful(i: Inst) {
    match i
    case Branch(_, o) => OffsetReads(o, Imm26)
    case BranchCond(_, o) => OffsetReads(o, Imm19)
    case CompareBranch(_, _, _, o) => OffsetReads(o, Imm19)
    case TestBranch(_, _, bit, o) => TestOffsetReads(bit, o)
    case LoadStoreImm(op, _, _, mode) => ScaledReads(mode, AccessSize(op))
    case FpLoadStoreImm(_, ft, _, mode) => ScaledReads(mode, if ft.double then 8 else 4)
    case LoadStorePair(_, is64, _, _, _, imm, _) => imm.scaled == 0 || imm.accessSize == if is64 then 8 else 4
    case _ => true
  }

  lemma ImmediatesRead(i: Inst)
    requires Constructed(i) && (i.MovWide? || i.AddSubImm? || i.LogicalImmInst?)
    ensures ReadsBack(i)
  {
    hide Decode, Bit, Num, ToBits, RawBits, MovWideOpc, LogicalImmOpc, MovWideWord, AddSubImmWord, LogicalImmWord;
    match i {
      case MovWide(op, rd, imm16, shift) => MovWideDecoded(op, rd, imm16, shift);
      case AddSubImm(op, s, rd, rn, imm, _) => AddSubImmDecoded(op.Sub?, s, rd, rn, imm);
      case LogicalImmInst(op, rd, rn, imm, _) => LogicalImmDecoded(op, rd, rn, imm);
    }
  }

  lemma ShiftedRead(i: Inst)
    requires Constructed(i) && (i.AddSubShiftedReg? || i.AddSubExtendedReg? || i.LogicalShiftedReg?)
    ensures ReadsBack(i)
  {
    hide Decode, Bit, Num, ToBits, ShiftBits, ExtendBits, LogicalShiftCodes;
    hide AddSubShiftedWord, AddSubExtendedWord, LogicalShiftedWord;
    match i {
      case AddSubShiftedReg(op, s, rd, rn, rm, shift, _) => AddSubShiftedDecoded(op.Sub?, s, rd, rn, rm, shift);
      case AddSubExtendedReg(op, s, rd, rn, rm, extend, _) => AddSubExtendedDecoded(op.Sub?, s, rd, rn, rm, extend);
      case LogicalShiftedReg(op, rd, rn, rm, shift, _) => LogicalShiftedDecoded(op, rd, rn, rm, shift);
    }
  }

  lemma SourcesRead(i: Inst)
    requires Constructed(i) && (i.DataProc1Source? || i.DataProc2Source? || i.DataProc3Source?)
    ensures ReadsBack(i)
  {
    hide Decode, Bit, Num, ToBits, DataProc2Opcode, DataProc3Codes, DataProc1Opcode, DataProc2Word, DataProc3Word, DataProc1Word;
    match i {
      case DataProc1Source(op, rd, rn) => DataProc1Decoded(op, rd, rn);
      case DataProc2Source(op, rd, rn, rm) => DataProc2Decoded(op, rd, rn, rm);
      case DataProc3Source(op, rd, rn, rm, ra, _) => DataProc3Decoded(op, rd, rn, rm, ra);
    }
  }

  lemma SelectsRead(i: Inst)
    requires Constructed(i) && (i.Bitfield? || i.CondSelect?)
    ensures ReadsBack(i)
  {
    hide Decode, Bit, Num, ToBits, BitfieldOpc, CondSelectCodes, CondBits, BitfieldWord, CondSelectWord;
    match i {
      case Bitfield(op, rd, rn, immr, imms, _) => BitfieldDecoded(op, rd, rn, immr, imms);
      case CondSelect(op, rd, rn, rm, cond, _) => CondSelectDecoded(op, rd, rn, rm, cond);
    }
  }

  lemma AddressesRead(i: Inst)
    requires Constructed(i) && (i.Adr? || i.Adrp?)
    ensures ReadsBack(i)
  {
    hide Decode, Num, AdrWord, AdrpWord;
    match i {
      case Adr(rd, adr) => AdrDecoded(rd, adr);
      case Adrp(rd, adr) => AdrpDecoded(rd, adr);
    }
  }

  lemma RegisterBranchesRead(i: Inst)
    requires Constructed(i) && (i.BranchReg? || i.BranchLinkReg? || i.Ret?)
    ensures ReadsBack(i)
  {
    hide Decode, Num, BranchRegWord, BranchLinkRegWord, RetWord;
    match i {
      case BranchReg(rn) => BranchRegDecoded(rn);
      case BranchLinkReg(rn) => BranchLinkRegDecoded(rn);
      case Ret(rn) => RetDecoded(rn);
    }
  }

  lemma NopReads()
    ensures ReadsBack(System(Nop))
  {
    hide Decode, ToBits, NopWord;
    NopDecoded();
  }

  lemma BrkReads(imm16: U16)
    ensures ReadsBack(System(Brk(imm16)))
  {
    hide Decode, ToBits, BrkWord;
    BrkDecoded(imm16);
  }

  lemma SvcReads(imm16: U16)
    ensures ReadsBack(System(Svc(imm16)))
  {
    hide Decode, ToBits, SvcWord;
    SvcDecoded(imm16);
  }

  lemma UdfReads(imm16: U16)
    ensures ReadsBack(System(Udf(imm16)))
  {
    hide Decode, ToBits, UdfWord;
    UdfDecoded(imm16);
  }

  lemma SystemReads(op: SysOp)
    ensures ReadsBack(System(op))
  {
    hide ReadsBack;
    match op {
      case Nop => NopReads();
      case Brk(imm16) => BrkReads(imm16);
      case Svc(imm16) => SvcReads(imm16);
      case Udf(imm16) => UdfReads(imm16);
    }
  }

  lemma FpUnaryRead(i: Inst)
    requires Constructed(i) && (i.FpDataProc1? || i.FpConvert?)
    ensures ReadsBack(i)
  {
    hide Decode, Bit, FpNum, FpUnaryOpcode, FpDataProc1Word;
    match i {
      case FpDataProc1(op, fd, fn) => FpDataProc1Decoded(op, fd, fn);
      case FpConvert(fd, fn) => FpConvertDecoded(fd, fn);
    }
  }

  lemma FpSelectsRead(i: Inst)
    requires Constructed(i) && (i.FpCompare? || i.FpCondSelect? || i.FpImmMove?)
    ensures ReadsBack(i)
  {
    hide Decode, Bit, FpNum, ToBits, CondBits, FpCompareWord, FpCondSelectWord, FpImmMoveWord;
    match i {
      case FpCompare(fn, fm) => FpCompareDecoded(fn, fm);
      case FpCondSelect(fd, fn, fm, cond) => FpCondSelectDecoded(fd, fn, fm, cond);
      case FpImmMove(fd, imm) => FpImmMoveDecoded(fd, imm);
    }
  }

  lemma FpArithmeticReads(i: Inst)
    requires Constructed(i) && (i.FpDataProc2? || i.FpMadd?)
    ensures ReadsBack(i)
  {
    hide Decode, Bit, FpNum, FpBinOpcode, FpDataProc2Word, FpMaddWord;
    match i {
      case FpDataProc2(op, fd, fn, fm) => FpDataProc2Decoded(op, fd, fn, fm);
      case FpMadd(fd, fn, fm, fa) => FpMaddDecoded(fd, fn, fm, fa);
    }
  }

  lemma FpMovesRead(i: Inst)
    requires Constructed(i) && (i.FpToGp? || i.GpToFp?)
    ensures ReadsBack(i)
  {
    hide Decode, Bit, Num, FpNum, FpIntWord;
    match i {
      case FpToGp(rd, fn) => FpToGpDecoded(rd, fn);
      case GpToFp(fd, rn) => GpToFpDecoded(fd, rn);
    }
  }

  lemma FpIntConvertReads(op: FpIntConvertOp, gp: Reg, fp: FpReg)
    ensures ReadsBack(FpIntConvert(op, gp, fp))
  {
    hide Decode, Bit, Num, FpNum, FpIntConvertCodes, FpIntWord;
    if op.Scvtf? || op.Ucvtf? {
      IntToFpDecoded(op, gp, fp);
    } else {
      FpToIntDecoded(op, gp, fp);
    }
  }

  // ---- Loads and stores: the word's own access size ----

  lemma LoadStoreReads(op: LdStOp, rt: Reg, rn: Reg, mode: AddrMode)
    requires Constructed(LoadStoreImm(op, rt, rn, mode))
    ensures ReadsBack(LoadStoreImm(op, rt, rn, mode)) <==> ScaledReads(mode, AccessSize(op))
  {
    hide Decode, Num, ToBits, Fits, FromBits, LdStCodes, EncodeLoadStore, SizeInBytes, LoadStoreFields;
    SizesAgree(op);
    SmallFits();
    NumBack(rt);
    NumBack(rn);
    var size, opc := LdStCodes(op).0, LdStCodes(op).1;
    ModeDecoded(size, 0, opc, Num(rt), Num(rn), mode);
    var w := EncodeLoadStore(size, 0, opc, Num(rt), Num(rn), mode);
    GpDecoded(op, rt, rn, DecodedMode(mode, size), w);
    assert Encode(LoadStoreImm(op, rt, rn, mode)) == w;
  }

  lemma FpLoadStoreReads(isLoad: bool, ft: FpReg, rn: Reg, mode: AddrMode)
    requires Constructed(FpLoadStoreImm(isLoad, ft, rn, mode))
    ensures ReadsBack(FpLoadStoreImm(isLoad, ft, rn, mode)) <==> ScaledReads(mode, if ft.double then 8 else 4)
  {
    FpSizes(ft.double);
    hide Decode, Num, FpNum, Bit, ToBits, Fits, FromBits, FpSize, EncodeLoadStore, SizeInBytes, LoadStoreFields;
    SmallFits();
    BitFits(isLoad);
    FpNumBack(ft);
    NumBack(rn);
    ModeDecoded(FpSize(ft.double), 1, Bit(isLoad), FpNum(ft), Num(rn), mode);
    var w := EncodeLoadStore(FpSize(ft.double), 1, Bit(isLoad), FpNum(ft), Num(rn), mode);
    FpDecoded(isLoad, ft, rn, DecodedMode(mode, FpSize(ft.double)), w);
    assert Encode(FpLoadStoreImm(isLoad, ft, rn, mode)) == w;
  }

  lemma FpSizes(double: bool)
    ensures Fits(FpSize(double), 3) && SizeInBytes(FpSize(double)) == if double then 8 else 4
  {
  }

  lemma BitFits(b: bool)
    ensures Fits(Bit(b), 3)
  {
  }

  lemma PairReads(i: Inst)
    requires Constructed(i) && i.LoadStorePair?
    ensures ReadsBack(i) <==> Faithful(i)
  {
    hide Decode, Bit, Num, ToBits, PairMode, Imm7Bits, LoadStorePairWord;
    PairDecoded(i.isLoad, i.is64, i.rt1, i.rt2, i.rn, i.imm7, i.index);
  }

  // ---- Branches: the width an offset was made for ----

  lemma BranchReads(link: bool, o: BranchOffset)
    requires o.InRange()
    ensures ReadsBack(Branch(link, o)) <==> OffsetReads(o, Imm26)
  {
    var x := o.Encoding();
    BranchField(o, Imm26);
    BranchDecoded(link, x);
    hide Decode, Bit, BranchWord, OffsetAt, OffsetReads, Fits;
    hide BranchOffset.Encoding;
  }

  /** An offset no wider than its field stays in the field, and is read back if and only if it was
      made for the width or goes forward. */
  lemma BranchField(o: BranchOffset, width: BranchWidth)
    requires o.InRange() && (o.width == width || o.width.Imm14? || width.Imm26?)
    ensures Fits(o.Encoding(), Mask(width))
    ensures OffsetAt(o.Encoding(), width).wordOff == o.wordOff <==> OffsetReads(o, width)
  {
    hide Fits, OffsetAt, Mask, SignBit, SignExtend;
    if OffsetReads(o, width) {
      OffsetBack(o, width);
    } else {
      NarrowBackward(o, width);
    }
  }

  /** Where a word of another shape cannot come from. */
  lemma ShapeDecides(w: bv32)
    requires Decode(w).Some?
    ensures Decode(w).value.BranchCond? ==> ShapeOf(w) == SBranchCond && Decode(w) == DecodeBranchCond(w)
    ensures Decode(w).value.CompareBranch? ==> ShapeOf(w) == SCompareBranch && Decode(w) == DecodeCompareBranch(w)
    ensures Decode(w).value.TestBranch? ==> ShapeOf(w) == STestBranch && Decode(w) == DecodeTestBranch(w)
  {
    hide ShapeOf, DecodeAdr, DecodeAdrp, DecodeBranch, DecodeBranchCond, DecodeBranchReg, DecodeBranchLinkReg, DecodeRet;
    hide DecodeBrk, DecodeSvc, DecodeUdf, DecodeFpCompare, DecodeFpImmMove, DecodeMovWide, DecodeAddSubImm, DecodeLogicalImm;
    hide DecodeBitfield, DecodeAddSubShifted, DecodeAddSubExtended, DecodeLogicalShifted, DecodeDataProc2, DecodeDataProc1;
    hide DecodeDataProc3, DecodeCondSelect, DecodeCompareBranch, DecodeTestBranch, DecodeLoadStoreScaled, DecodeLoadStoreSimm9;
    hide DecodeLoadStoreReg, DecodeLoadStorePair, DecodeFpDataProc1, DecodeFpDataProc2, DecodeFpCondSelect, DecodeFpInt, DecodeFpMadd;
  }

  lemma BranchCondReads(cond: Cond, o: BranchOffset)
    requires o.InRange()
    ensures ReadsBack(BranchCond(cond, o)) <==> OffsetReads(o, Imm19)
  {
    hide Decode, CondBits, BranchCondWord, SignExtend, OffsetReads, Fits;
    hide BranchOffset.Encoding, BranchOffset.InRange;
    if o.width == Imm26 && !OffsetReads(o, Imm19) {
      WideBranchCond(cond, o);
    } else {
      NoWiderField(o, Imm19);
      BranchCondDecoded(cond, o.Encoding());
    }
  }

  /** The fields of `BranchField` for an offset that is not too wide, or goes forward. */
  lemma NoWiderField(o: BranchOffset, width: BranchWidth)
    requires o.InRange() && (o.width == width || o.width.Imm14? || width.Imm26? || OffsetReads(o, width))
    ensures Fits(o.Encoding(), Mask(width))
    ensures OffsetAt(o.Encoding(), width).wordOff == o.wordOff <==> OffsetReads(o, width)
  {
    hide Fits, OffsetAt, Mask, SignBit, SignExtend;
    if OffsetReads(o, width) {
      OffsetBack(o, width);
    } else {
      BranchField(o, width);
    }
  }

  lemma WideBranchCond(cond: Cond, o: BranchOffset)
    requires o.InRange() && o.width == Imm26 && !OffsetReads(o, Imm19)
    ensures !ReadsBack(BranchCond(cond, o))
  {
    hide Decode, CondBits, BranchCondWord, OffsetReads, Fits, ShapeOf, SignExtend;
    hide BranchOffset.Encoding, BranchOffset.InRange;
    var w := BranchCondWord(o.Encoding(), CondBits(cond));
    if Decode(w).Some? && Decode(w).value.BranchCond? {
      ShapeDecides(w);
      BranchCondSpilled(cond, o);
    }
    assert Encode(BranchCond(cond, o)) == w;
  }

  lemma BranchCondSpilled(cond: Cond, o: BranchOffset)
    requires o.InRange() && o.width == Imm26 && !OffsetReads(o, Imm19)
    requires ShapeOf(BranchCondWord(o.Encoding(), CondBits(cond))) == SBranchCond
    ensures OffsetAt(Off19(BranchCondWord(o.Encoding(), CondBits(cond))), Imm19).wordOff != o.wordOff
  {
    hide *;
    Wide26(o);
    TooWide(o, Imm19);
    CondBack(cond);
    BranchCondMisread(o.wordOff, o.Encoding(), CondBits(cond), BranchCondWord(o.Encoding(), CondBits(cond)));
  }

  predicate Masked26(x: bv32, enc: bv32) {
    SignExtend(x, 0x200_0000, 0x3FF_FFFF) == x && enc == x & 0x3FF_FFFF
  }

  /** What an offset made for 26 bits is. */
  lemma Wide26(o: BranchOffset)
    requires o.InRange() && o.width == Imm26
    ensures Masked26(o.wordOff, o.Encoding())
  {
    hide SignExtend;
  }

  predicate Beyond(x: bv32, width: BranchWidth) {
    x >= SignBit(width)
  }

  lemma TooWide(o: BranchOffset, width: BranchWidth)
    requires !OffsetReads(o, width)
    ensures o.width != width && Beyond(o.wordOff, width)
  {
    hide SignBit;
  }

  lemma BranchCondMisread(x: bv32, enc: bv32, c: bv32, w: bv32)
    requires Masked26(x, enc) && Beyond(x, Imm19) && Fits(c, 0xF)
    requires w == BranchCondWord(enc, c) && ShapeOf(w) == SBranchCond
    ensures OffsetAt(Off19(w), Imm19).wordOff != x
  {
    hide SignExtend, ShapeOf, BranchCondWord, Off19, Fits;
    BranchCondBits(w);
    SpillsBranchCond(x, c, w);
  }

  lemma CompareBranchReads(nz: bool, rt: Reg, o: BranchOffset)
    requires o.InRange()
    ensures ReadsBack(CompareBranch(rt.is64, nz, rt, o)) <==> OffsetReads(o, Imm19)
  {
    hide Decode, Bit, Num, CompareBranchWord, SignExtend, OffsetReads, Fits;
    hide BranchOffset.Encoding, BranchOffset.InRange;
    if o.width == Imm26 && !OffsetReads(o, Imm19) {
      WideCompareBranch(nz, rt, o);
    } else {
      NoWiderField(o, Imm19);
      CompareBranchDecoded(nz, rt, o.Encoding());
    }
  }

  lemma WideCompareBranch(nz: bool, rt: Reg, o: BranchOffset)
    requires o.InRange() && o.width == Imm26 && !OffsetReads(o, Imm19)
    ensures !ReadsBack(CompareBranch(rt.is64, nz, rt, o))
  {
    hide Decode, Bit, Num, CompareBranchWord, OffsetReads, Fits, ShapeOf, SignExtend;
    hide BranchOffset.Encoding, BranchOffset.InRange;
    var w := CompareBranchWord(Bit(rt.is64), Bit(nz), o.Encoding(), Num(rt));
    if Decode(w).Some? && Decode(w).value.CompareBranch? {
      ShapeDecides(w);
      CompareBranchSpilled(nz, rt, o);
    }
    assert Encode(CompareBranch(rt.is64, nz, rt, o)) == w;
  }

  lemma CompareBranchSpilled(nz: bool, rt: Reg, o: BranchOffset)
    requires o.InRange() && o.width == Imm26 && !OffsetReads(o, Imm19)
    requires ShapeOf(CompareBranchWord(Bit(rt.is64), Bit(nz), o.Encoding(), Num(rt))) == SCompareBranch
    ensures OffsetAt(Off19(CompareBranchWord(Bit(rt.is64), Bit(nz), o.Encoding(), Num(rt))), Imm19).wordOff != o.wordOff
  {
    hide *;
    Wide26(o);
    TooWide(o, Imm19);
    BitBack(rt.is64);
    BitBack(nz);
    NumBack(rt);
    CompareBranchMisread(o.wordOff, o.Encoding(), Bit(rt.is64), Bit(nz), Num(rt),
                         CompareBranchWord(Bit(rt.is64), Bit(nz), o.Encoding(), Num(rt)));
  }

  lemma CompareBranchMisread(x: bv32, enc: bv32, sf: bv32, nz: bv32, rt: bv32, w: bv32)
    requires Masked26(x, enc) && Beyond(x, Imm19) && Fits(sf, 1) && Fits(nz, 1) && Fits(rt, 0x1F)
    requires w == CompareBranchWord(sf, nz, enc, rt) && ShapeOf(w) == SCompareBranch
    ensures OffsetAt(Off19(w), Imm19).wordOff != x
  {
    hide SignExtend, ShapeOf, CompareBranchWord, Off19, Fits;
    CompareBranchBits(w);
    SpillsCompareBranch(x, sf, nz, rt, w);
  }

  lemma TestBranchReads(nz: bool, rt: Reg, bit: U6, o: BranchOffset)
    requires o.InRange()
    ensures ReadsBack(TestBranch(nz, rt, bit, o)) <==> TestOffsetReads(bit, o)
  {
    hide Decode, Encode, Canon, OffsetReads;
    hide BranchOffset.Encoding, BranchOffset.InRange;
    if o.width == Imm26 && !OffsetReads(o, Imm14) {
      WideTestBranch(nz, rt, bit, o);
    } else if o.width == Imm19 && !OffsetReads(o, Imm14) {
      SpilledTestBranch(nz, rt, bit, o);
    } else {
      NarrowTestBranch(nz, rt, bit, o);
    }
  }

  lemma NarrowTestBranch(nz: bool, rt: Reg, bit: U6, o: BranchOffset)
    requires o.InRange() && (o.width == Imm14 || OffsetReads(o, Imm14))
    ensures ReadsBack(TestBranch(nz, rt, bit, o)) <==> OffsetReads(o, Imm14)
  {
    hide Decode, ToBits, FromBits, Bit, Num, TestBranchWord, SignExtend, OffsetReads, Fits;
    hide BranchOffset.Encoding, BranchOffset.InRange;
    NoWiderField(o, Imm14);
    Back5(bit % 32);
    TestBranchDecoded(nz, rt, bit / 32, ToBits(bit % 32, 5), o.Encoding());
  }

  lemma TestBranchEncoded(nz: bool, rt: Reg, bit: U6, o: BranchOffset)
    ensures Encode(TestBranch(nz, rt, bit, o)) ==
            TestBranchWord(ToBits(bit / 32, 1), Bit(nz), ToBits(bit % 32, 5), o.Encoding(), Num(rt))
  {
    hide ToBits, Bit, Num, TestBranchWord;
    hide BranchOffset.Encoding;
  }

  lemma WideTestBranch(nz: bool, rt: Reg, bit: U6, o: BranchOffset)
    requires o.InRange() && o.width == Imm26 && !OffsetReads(o, Imm14)
    ensures !ReadsBack(TestBranch(nz, rt, bit, o))
  {
    hide Encode, Decode, ToBits, FromBits, Bit, IsSet, Num, RegAt, TestBranchWord, OffsetReads, Fits, ShapeOf, SignExtend;
    hide Number1, Number5, Nz, Sf, B40, Rd, Off14;
    hide BranchOffset.Encoding, BranchOffset.InRange;
    var w := TestBranchWord(ToBits(bit / 32, 1), Bit(nz), ToBits(bit % 32, 5), o.Encoding(), Num(rt));
    TestBranchEncoded(nz, rt, bit, o);
    if Decode(w).Some? && Decode(w).value.TestBranch? {
      ShapeDecides(w);
      TestBranchSpilled(nz, rt, bit, o);
    }
  }

  lemma TestBranchSpilled(nz: bool, rt: Reg, bit: U6, o: BranchOffset)
    requires o.InRange() && o.width == Imm26 && !OffsetReads(o, Imm14)
    requires ShapeOf(TestBranchWord(ToBits(bit / 32, 1), Bit(nz), ToBits(bit % 32, 5), o.Encoding(), Num(rt))) == STestBranch
    ensures var w := TestBranchWord(ToBits(bit / 32, 1), Bit(nz), ToBits(bit % 32, 5), o.Encoding(), Num(rt));
            OffsetAt(Off14(w), Imm14).wordOff != o.wordOff
  {
    hide *;
    Wide26(o);
    TooWide(o, Imm14);
    Back1(bit / 32);
    Back5(bit % 32);
    BitBack(nz);
    NumBack(rt);
    TestBranchMisread(o.wordOff, o.Encoding(), ToBits(bit / 32, 1), Bit(nz), ToBits(bit % 32, 5), Num(rt),
                      TestBranchWord(ToBits(bit / 32, 1), Bit(nz), ToBits(bit % 32, 5), o.Encoding(), Num(rt)));
  }

  lemma TestBranchMisread(x: bv32, enc: bv32, b5: bv32, nz: bv32, b40: bv32, rt: bv32, w: bv32)
    requires Masked26(x, enc) && Beyond(x, Imm14) && Fits(b5, 1) && Fits(nz, 1) && Fits(b40, 0x1F) && Fits(rt, 0x1F)
    requires w == TestBranchWord(b5, nz, b40, enc, rt) && ShapeOf(w) == STestBranch
    ensures OffsetAt(Off14(w), Imm14).wordOff != x
  {
    hide SignExtend, ShapeOf, TestBranchWord, Off14, Fits;
    TestBranchBits(w);
    SpillsTestBranch(x, b5, nz, b40, rt, w);
  }

  // ---- A 19-bit offset of a `TBZ`: five of its bits land in the bit number ----

  function SpilledBits(bit: U6, x: bv32): bv32 {
    Merged(ToBits(bit % 32, 5), x)
  }

  lemma SpilledTestBranch(nz: bool, rt: Reg, bit: U6, o: BranchOffset)
    requires o.InRange() && o.width == Imm19 && !OffsetReads(o, Imm14)
    ensures ReadsBack(TestBranch(nz, rt, bit, o)) <==> TestOffsetReads(bit, o)
  {
    hide Encode, Decode, ToBits, FromBits, Bit, Num, TestBranchWord, OffsetReads, Fits, SignExtend, Merged, Low14, Backward14;
    hide BranchOffset.Encoding, BranchOffset.InRange;
    var w := TestBranchWord(ToBits(bit / 32, 1), Bit(nz), ToBits(bit % 32, 5), o.Encoding(), Num(rt));
    SpilledWord(nz, rt, bit, o);
    TestBranchDecoded(nz, rt, bit / 32, Merged(ToBits(bit % 32, 5), o.wordOff), Low14(o.wordOff));
    TestBranchEncoded(nz, rt, bit, o);
    SpilledReads(bit, o);
  }

  lemma SpilledWord(nz: bool, rt: Reg, bit: U6, o: BranchOffset)
    requires o.width == Imm19
    ensures TestBranchWord(ToBits(bit / 32, 1), Bit(nz), ToBits(bit % 32, 5), o.Encoding(), Num(rt)) ==
            TestBranchWord(ToBits(bit / 32, 1), Bit(nz), Merged(ToBits(bit % 32, 5), o.wordOff), Low14(o.wordOff), Num(rt))
    ensures Fits(Merged(ToBits(bit % 32, 5), o.wordOff), 0x1F) && Fits(Low14(o.wordOff), 0x3FFF)
  {
    hide *;
    Back1(bit / 32);
    Back5(bit % 32);
    BitBack(nz);
    NumBack(rt);
    Wide19(o);
    MergedFits(o.wordOff, ToBits(bit % 32, 5));
    SpillsIntoBit(o.wordOff, o.Encoding(), ToBits(bit / 32, 1), Bit(nz), ToBits(bit % 32, 5), Num(rt));
  }

  lemma Wide19(o: BranchOffset)
    requires o.width == Imm19
    ensures Masked19(o.wordOff, o.Encoding())
  {
  }

  /** The bit number and the offset both survive exactly for a backward offset and ones already in
      the low bits. */
  lemma SpilledReads(bit: U6, o: BranchOffset)
    requires o.width == Imm19 && !OffsetReads(o, Imm14)
    ensures OffsetAt(Low14(o.wordOff), Imm14).wordOff == o.wordOff && Number5(SpilledBits(bit, o.wordOff)) == bit % 32
            <==> TestOffsetReads(bit, o)
  {
    hide ToBits, FromBits, Fits, SpilledBits, Low14, OffsetReads, SignExtend, Backward14, OffsetAt, Number5;
    if OffsetAt(Low14(o.wordOff), Imm14).wordOff == o.wordOff {
      TooWide(o, Imm14);
      OnesSpill(o.wordOff);
    }
    if Backward14(o.wordOff) {
      BackwardIsRead(o.wordOff);
      OnesRead(bit, o.wordOff);
    }
  }

  lemma OnesSpill(x: bv32)
    requires Beyond(x, Imm14) && OffsetAt(Low14(x), Imm14).wordOff == x
    ensures Backward14(x)
  {
    hide SignExtend, Backward14;
    SpilledBackward(x);
  }

  lemma OnesRead(bit: U6, x: bv32)
    requires Backward14(x)
    ensures Number5(SpilledBits(bit, x)) == 31
  {
    hide ToBits, FromBits, Fits, Merged, Backward14, Number5;
    Back5(bit % 32);
    BackwardMerges(x, ToBits(bit % 32, 5));
    AllOnes();
  }

  lemma BackwardIsRead(x: bv32)
    requires Backward14(x)
    ensures OffsetAt(Low14(x), Imm14).wordOff == x
  {
    hide SignExtend, Backward14;
    BackwardSpills(x);
  }

  // ---- Main results ----

  /** An instruction the constructors let through is read back from its word if and only if its
      offsets were made for it. */
  lemma RoundTripExact(i: Inst)
    requires Constructed(i)
    ensures ReadsBack(i) <==> Faithful(i)
  {
    hide ReadsBack;
    match i {
      case MovWide(_, _, _, _) => ImmediatesRead(i);
      case AddSubImm(_, _, _, _, _, _) => ImmediatesRead(i);
      case LogicalImmInst(_, _, _, _, _) => ImmediatesRead(i);
      case AddSubShiftedReg(_, _, _, _, _, _, _) => ShiftedRead(i);
      case AddSubExtendedReg(_, _, _, _, _, _, _) => ShiftedRead(i);
      case LogicalShiftedReg(_, _, _, _, _, _) => ShiftedRead(i);
      case Bitfield(_, _, _, _, _, _) => SelectsRead(i);
      case CondSelect(_, _, _, _, _, _) => SelectsRead(i);
      case DataProc2Source(_, _, _, _) => SourcesRead(i);
      case DataProc3Source(_, _, _, _, _, _) => SourcesRead(i);
      case DataProc1Source(_, _, _) => SourcesRead(i);
      case Adr(_, _) => AddressesRead(i);
      case Adrp(_, _) => AddressesRead(i);
      case Branch(link, o) => BranchReads(link, o);
      case BranchCond(cond, o) => BranchCondReads(cond, o);
      case CompareBranch(_, nz, rt, o) => CompareBranchReads(nz, rt, o);
      case TestBranch(nz, rt, bit, o) => TestBranchReads(nz, rt, bit, o);
      case BranchReg(_) => RegisterBranchesRead(i);
      case BranchLinkReg(_) => RegisterBranchesRead(i);
      case Ret(_) => RegisterBranchesRead(i);
      case LoadStoreImm(op, rt, rn, mode) => LoadStoreReads(op, rt, rn, mode);
      case LoadStorePair(_, _, _, _, _, _, _) => PairReads(i);
      case FpLoadStoreImm(isLoad, ft, rn, mode) => FpLoadStoreReads(isLoad, ft, rn, mode);
      case System(op) => SystemReads(op);
      case FpDataProc1(_, _, _) => FpUnaryRead(i);
      case FpConvert(_, _) => FpUnaryRead(i);
      case FpDataProc2(_, _, _, _) => FpArithmeticReads(i);
      case FpMadd(_, _, _, _) => FpArithmeticReads(i);
      case FpCompare(_, _) => FpSelectsRead(i);
      case FpCondSelect(_, _, _, _) => FpSelectsRead(i);
      case FpImmMove(_, _) => FpSelectsRead(i);
      case FpToGp(_, _) => FpMovesRead(i);
      case GpToFp(_, _) => FpMovesRead(i);
      case FpIntConvert(op, gp, fp) => FpIntConvertReads(op, gp, fp);
    }
  }

  /** Equal words come from instructions no reader can tell apart. */
  lemma EqualWords(i: Inst, j: Inst)
    requires Constructed(i) && Faithful(i) && Constructed(j) && Faithful(j)
    requires Encode(i) == Encode(j)
    ensures Canon(i) == Canon(j)
  {
    hide Encode, Decode, Canon, Constructed, Faithful;
    RoundTripExact(i);
    RoundTripExact(j);
  }
}
